/** The call-tone handlers of backend/src/controllers/callToneController.js over
    the CallTone collection and the users' selectedCallTone pointers.

    The collection is a sequence of documents in insertion order (the order a
    query meets them before sorting) with unique ids; the read handlers are
    functions over it, and the handlers that write (upload, delete, select) are
    methods of ToneStore, which also holds the files of the local uploads
    directory. ObjectId generation is a counter; Date.now, the outcome of
    fs.unlink and the URL S3 reports are parameters. */
module ToneController {
  import opened Strings
  import opened ToneSchema
  import Storage

  /** An error handed to next(error), which the (unshown) error handler answers. */
  datatype Failure =
    | OwnerMissing                        // uploadedBy.toString() on a tone with no owner
    | SchemaInvalid(paths: set<Path>)     // CallTone.create rejected the document
    | UploadRejected(error: Storage.StoreError)  // multer refused the file part

  /** What a handler sends. */
  datatype Response =
    | Listed(count: nat, tones: seq<CallTone>)  // 200 {success, count, data}
    | Found(tone: CallTone)                     // 200 {success, data}
    | CreatedTone(tone: CallTone)               // 201 {success, data}
    | Deleted                                   // 200 "Call tone deleted successfully"
    | SelectedTone(tone: CallTone)              // 200 "Call tone selected successfully", data
    | Refused(status: int, message: string)     // 400, 403 or 404 {success: false, message}
    | Forwarded(failure: Failure)               // next(error)

  const NotFoundMessage: string := "Call tone not found"
  const NoFileMessage: string := "Please upload a file"
  const ForbiddenMessage: string := "Not authorized to delete this call tone"

  // ---------------------------------------------------------------------------
  // the collection

  predicate UniqueIds(docs: seq<CallTone>) {
    forall i, j :: 0 <= i < j < |docs| ==> docs[i].id != docs[j].id
  }

  /** CallTone.findById. */
  function FindById(docs: seq<CallTone>, id: ToneId): (r: Option<CallTone>)
    ensures r.Some? ==> r.value in docs && r.value.id == id
    ensures r.None? ==> forall i :: 0 <= i < |docs| ==> docs[i].id != id
  {
    if |docs| == 0 then None
    else if docs[0].id == id then Some(docs[0])
    else
      var r := FindById(docs[1..], id);
      assert r.None? ==> forall i :: 1 <= i < |docs| ==> docs[i] == docs[1..][i - 1];
      r
  }

  /** deleteOne on the document with this id: every other document stays, in
      its order. */
  function RemoveId(docs: seq<CallTone>, id: ToneId): (r: seq<CallTone>)
    ensures forall t :: t in r <==> t in docs && t.id != id
  {
    if |docs| == 0 then []
    else if docs[0].id == id then RemoveId(docs[1..], id)
    else [docs[0]] + RemoveId(docs[1..], id)
  }

  /** Removing documents keeps the remaining ids unique. */
  lemma {:induction false} RemoveIdKeepsUniqueIds(docs: seq<CallTone>, id: ToneId)
    requires UniqueIds(docs)
    ensures UniqueIds(RemoveId(docs, id))
  {
    if |docs| > 0 {
      UniqueTail(docs);
      RemoveIdKeepsUniqueIds(docs[1..], id);
      if docs[0].id != id {
        FreshHead(docs[0], RemoveId(docs[1..], id));
      }
    }
  }

  /** Putting a document in front of others whose ids differ from its own. */
  lemma FreshHead(d: CallTone, rest: seq<CallTone>)
    requires UniqueIds(rest) && forall x :: x in rest ==> x.id != d.id
    ensures UniqueIds([d] + rest)
  {
    var r := [d] + rest;
    forall i, j | 0 <= i < j < |r| ensures r[i].id != r[j].id {
      assert r[j] == rest[j - 1];
      if i > 0 { assert r[i] == rest[i - 1]; }
    }
  }

  lemma UniqueTail(docs: seq<CallTone>)
    requires |docs| > 0 && UniqueIds(docs)
    ensures UniqueIds(docs[1..])
    ensures forall x :: x in docs[1..] ==> x.id != docs[0].id
  {
    var tail := docs[1..];
    forall i, j | 0 <= i < j < |tail| ensures tail[i].id != tail[j].id {
      assert tail[i] == docs[i + 1] && tail[j] == docs[j + 1];
    }
    forall x | x in tail ensures x.id != docs[0].id {
      var k :| 0 <= k < |tail| && tail[k] == x;
      assert docs[k + 1] == x;
    }
  }

  /** Deleting an id no document has changes nothing. */
  lemma {:induction false} RemoveAbsentId(docs: seq<CallTone>, id: ToneId)
    requires forall x :: x in docs ==> x.id != id
    ensures RemoveId(docs, id) == docs
  {
    if |docs| > 0 {
      assert docs[0] in docs;
      RemoveAbsentId(docs[1..], id);
      assert [docs[0]] + docs[1..] == docs;
    }
  }

  /** With unique ids, deleting a present id removes exactly one document. */
  lemma {:induction false} RemoveIdRemovesOne(docs: seq<CallTone>, id: ToneId)
    requires UniqueIds(docs) && exists x :: x in docs && x.id == id
    ensures |RemoveId(docs, id)| == |docs| - 1
  {
    UniqueTail(docs);
    if docs[0].id == id {
      RemoveAbsentId(docs[1..], id);
    } else {
      var x :| x in docs && x.id == id;
      assert x in docs[1..] by { assert docs == [docs[0]] + docs[1..]; }
      RemoveIdRemovesOne(docs[1..], id);
    }
  }

  /** Delete is idempotent on the collection: once removed, the id is not found. */
  lemma RemovedIdNotFound(docs: seq<CallTone>, id: ToneId)
    ensures FindById(RemoveId(docs, id), id).None?
  {
  }

  // ---------------------------------------------------------------------------
  // filtering and ordering

  /** The documents a query keeps, each as often as it occurs. */
  function Filter(docs: seq<CallTone>, keep: CallTone -> bool): (r: seq<CallTone>)
    ensures forall t :: multiset(r)[t] == if keep(t) then multiset(docs)[t] else 0
  {
    if |docs| == 0 then []
    else
      var rest := Filter(docs[1..], keep);
      assert docs == [docs[0]] + docs[1..];
      if keep(docs[0]) then [docs[0]] + rest else rest
  }

  /** .sort({ createdAt: -1 }). */
  predicate NewestFirst(s: seq<CallTone>) {
    forall i, j :: 0 <= i < j < |s| ==> s[i].createdAt >= s[j].createdAt
  }

  function InsertNewest(t: CallTone, s: seq<CallTone>): (r: seq<CallTone>)
    requires NewestFirst(s)
    ensures NewestFirst(r)
    ensures multiset(r) == multiset(s) + multiset{t}
  {
    if |s| == 0 || t.createdAt >= s[0].createdAt then
      PrependNewest(t, s);
      [t] + s
    else
      var rest := InsertNewest(t, s[1..]);
      assert s == [s[0]] + s[1..];
      forall i | 0 <= i < |rest| ensures rest[i].createdAt <= s[0].createdAt {
        assert rest[i] in multiset(rest);
        if rest[i] != t {
          assert rest[i] in multiset(s[1..]);
          var k :| 0 <= k < |s[1..]| && s[1..][k] == rest[i];
          assert s[k + 1] == rest[i];
        }
      }
      PrependNewest(s[0], rest);
      [s[0]] + rest
  }

  /** A document no older than any of a newest-first sequence can go in front. */
  lemma PrependNewest(d: CallTone, s: seq<CallTone>)
    requires NewestFirst(s)
    requires forall i :: 0 <= i < |s| ==> s[i].createdAt <= d.createdAt
    ensures NewestFirst([d] + s)
  {
    var r := [d] + s;
    forall i, j | 0 <= i < j < |r| ensures r[i].createdAt >= r[j].createdAt {
      assert r[j] == s[j - 1];
      if i > 0 { assert r[i] == s[i - 1]; }
    }
  }

  /** A stable sort, newest first; documents with equal createdAt keep their
      collection order. */
  function SortNewestFirst(s: seq<CallTone>): (r: seq<CallTone>)
    ensures NewestFirst(r)
    ensures multiset(r) == multiset(s)
  {
    if |s| == 0 then []
    else
      assert s == [s[0]] + s[1..];
      InsertNewest(s[0], SortNewestFirst(s[1..]))
  }

  // ---------------------------------------------------------------------------
  // read handlers

  /** The query string of GET /api/calltones. */
  datatype ListQuery = ListQuery(category: Option<string>, isPublic: Option<string>)

  /** The Mongo filter getAllCallTones builds: an exact category match when a
      category is given; then, when isPublic is exactly "true", public tones only,
      and otherwise public tones together with the requester's own. */
  predicate Visible(q: ListQuery, requester: UserId, t: CallTone) {
    && (Truthy(q.category) ==> CategoryName(t.category) == q.category.value)
    && (if q.isPublic == Some("true") then t.isPublic
        else t.isPublic || t.uploadedBy == Some(requester))
  }

  /** getAllCallTones: the visible documents, each once per occurrence, newest
      first, with their count. */
  function GetAllCallTones(docs: seq<CallTone>, requester: UserId, q: ListQuery): (r: Response)
    ensures r.Listed? && r.count == |r.tones| && NewestFirst(r.tones)
    ensures forall t :: multiset(r.tones)[t] == if Visible(q, requester, t) then multiset(docs)[t] else 0
  {
    var tones := SortNewestFirst(Filter(docs, t => Visible(q, requester, t)));
    Listed(|tones|, tones)
  }

  /** getCallTone: the document with the id, or 404. */
  function GetCallTone(docs: seq<CallTone>, id: ToneId): (r: Response)
    ensures r.Found? || r == Refused(404, NotFoundMessage)
    ensures r.Found? ==> r.tone in docs && r.tone.id == id
    ensures !r.Found? ==> forall i :: 0 <= i < |docs| ==> docs[i].id != id
  {
    match FindById(docs, id)
    case Some(t) => Found(t)
    case None => Refused(404, NotFoundMessage)
  }

  /** getAIGeneratedCallTones: the public documents flagged isAIGenerated, newest
      first, whoever owns them and whatever their category. */
  function GetAIGeneratedCallTones(docs: seq<CallTone>): (r: Response)
    ensures r.Listed? && r.count == |r.tones| && NewestFirst(r.tones)
    ensures forall t :: multiset(r.tones)[t] == if t.isAIGenerated && t.isPublic then multiset(docs)[t] else 0
  {
    var tones := SortNewestFirst(Filter(docs, (t: CallTone) => t.isAIGenerated && t.isPublic));
    Listed(|tones|, tones)
  }

  /** Without isPublic=true and without a category, the listing is the union of
      the public tones and the requester's own tones. */
  lemma ListingIsUnion(docs: seq<CallTone>, requester: UserId, q: ListQuery, t: CallTone)
    requires q.isPublic != Some("true") && !Truthy(q.category)
    ensures t in GetAllCallTones(docs, requester, q).tones
        <==> t in docs && (t.isPublic || t.uploadedBy == Some(requester))
  {
    assert t in GetAllCallTones(docs, requester, q).tones <==> multiset(GetAllCallTones(docs, requester, q).tones)[t] > 0;
  }

  /** With isPublic=true the listing holds the public tones only, the requester's
      private ones included nowhere. */
  lemma ListingPublicOnly(docs: seq<CallTone>, requester: UserId, q: ListQuery, t: CallTone)
    requires q.isPublic == Some("true") && !Truthy(q.category)
    ensures t in GetAllCallTones(docs, requester, q).tones <==> t in docs && t.isPublic
  {
    assert t in GetAllCallTones(docs, requester, q).tones <==> multiset(GetAllCallTones(docs, requester, q).tones)[t] > 0;
  }

  /** A category narrows either listing to the tones of exactly that category. */
  lemma ListingCategoryNarrows(docs: seq<CallTone>, requester: UserId, isPublic: Option<string>,
                               category: string, t: CallTone)
    requires category != ""
    ensures t in GetAllCallTones(docs, requester, ListQuery(Some(category), isPublic)).tones
        <==> t in GetAllCallTones(docs, requester, ListQuery(None, isPublic)).tones
             && CategoryName(t.category) == category
  {
    var narrowed := GetAllCallTones(docs, requester, ListQuery(Some(category), isPublic)).tones;
    var wide := GetAllCallTones(docs, requester, ListQuery(None, isPublic)).tones;
    assert t in narrowed <==> multiset(narrowed)[t] > 0;
    assert t in wide <==> multiset(wide)[t] > 0;
  }

  /** Another user's private tone is never listed, whatever the query. */
  lemma PrivateToneHiddenFromOthers(docs: seq<CallTone>, requester: UserId, q: ListQuery, t: CallTone)
    requires !t.isPublic && t.uploadedBy != Some(requester)
    ensures t !in GetAllCallTones(docs, requester, q).tones
  {
    assert multiset(GetAllCallTones(docs, requester, q).tones)[t] == 0;
  }

  /** The AI list goes by the isAIGenerated flag, not by the category: a public
      tone of category ai-generated without the flag is left out, and a flagged
      public tone of another category is listed. */
  lemma AIListFollowsFlagNotCategory(docs: seq<CallTone>, t: CallTone)
    requires t in docs && t.isPublic
    ensures t in GetAIGeneratedCallTones(docs).tones <==> t.isAIGenerated
  {
    var tones := GetAIGeneratedCallTones(docs).tones;
    assert t in tones <==> multiset(tones)[t] > 0;
  }

  // ---------------------------------------------------------------------------
  // upload

  /** req.body of the upload form; None is a field that was not sent. */
  datatype UploadFields = UploadFields(
    title: Option<string>,
    description: Option<string>,
    isPublic: Option<string>,
    tags: Option<string>)

  /** req.file.location || `/uploads/${req.file.filename}`; an undefined filename
      renders as "undefined". */
  function FileUrl(file: Storage.StoredFile): (url: string)
    ensures url != ""
    ensures Truthy(file.location) ==> url == file.location.value
    ensures !Truthy(file.location) ==>
      url == "/uploads/" + (if file.filename.Some? then file.filename.value else "undefined")
  {
    if Truthy(file.location) then file.location.value
    else "/uploads/" + (if file.filename.Some? then file.filename.value else "undefined")
  }

  /** tags ? tags.split(',').map(tag => tag.trim()) : []. */
  function ParseTags(tags: Option<string>): seq<string> {
    if Truthy(tags) then TrimAll(Split(tags.value, ',')) else []
  }

  /** The attributes uploadCallTone hands to CallTone.create. */
  function UploadAttrs(requester: UserId, file: Storage.StoredFile, fields: UploadFields): Attrs {
    Attrs(
      title := Some(if Truthy(fields.title) then fields.title.value else file.originalname),
      description := fields.description,
      fileUrl := Some(FileUrl(file)),
      fileType := Some(file.mimetype),
      fileSize := Some(file.size),
      duration := None,
      uploadedBy := Some(requester),
      isAIGenerated := None,
      isPublic := Some(fields.isPublic == Some("true")),
      category := Some("user-uploaded"),
      tags := ParseTags(fields.tags),
      createdAt := None)
  }

  /** The record an upload creates: the title is the given one, or else the full
      original file name (extension kept), trimmed; the locator, type and size
      come from the stored file; the owner is the requester; the category is
      user-uploaded; it is public only for the exact form value "true"; it is not
      AI-generated, has no duration and was created now; and its tags are the
      comma-separated pieces of the tags field, each trimmed, in order, empty
      pieces kept. */
  lemma UploadedRecord(requester: UserId, file: Storage.StoredFile, fields: UploadFields, id: ToneId, now: int)
    requires Create(UploadAttrs(requester, file, fields), id, now).Created?
    ensures var t := Create(UploadAttrs(requester, file, fields), id, now).tone;
      && t.id == id
      && t.title == Trim(if Truthy(fields.title) then fields.title.value else file.originalname)
      && t.fileUrl == FileUrl(file) && t.fileType == file.mimetype && t.fileSize == file.size
      && t.uploadedBy == Some(requester) && t.category == UserUploaded
      && (t.isPublic <==> fields.isPublic == Some("true"))
      && !t.isAIGenerated && t.duration.None? && t.createdAt == now
      && t.description == TrimOpt(fields.description)
      && t.tags == (if Truthy(fields.tags) then TrimAll(Split(fields.tags.value, ',')) else [])
  {
    var a := UploadAttrs(requester, file, fields);
    CreateDefaults(a, id, now);
    TrimAllOfTrimmed(a.tags);
  }

  /** An upload that reached the controller fails validation exactly when the
      title (given, or else the file name) is blank after trimming or the file
      has an empty mimetype. */
  lemma UploadAcceptedIff(requester: UserId, file: Storage.StoredFile, fields: UploadFields, id: ToneId, now: int)
    ensures Create(UploadAttrs(requester, file, fields), id, now).Created?
        <==> Trim(if Truthy(fields.title) then fields.title.value else file.originalname) != ""
             && file.mimetype != ""
  {
  }

  /** Without a title the record is titled with the whole original file name,
      extension included ("ring.mp3", not "ring"), when that name has no
      surrounding white space. */
  lemma DefaultTitleIsFileName(requester: UserId, file: Storage.StoredFile, id: ToneId, now: int)
    requires file.originalname != "" && IsTrimmed(file.originalname) && file.mimetype != ""
    ensures var r := Create(UploadAttrs(requester, file, UploadFields(None, None, None, None)), id, now);
      r.Created? && r.tone.title == file.originalname
  {
    TrimOfTrimmed(file.originalname);
    UploadAcceptedIff(requester, file, UploadFields(None, None, None, None), id, now);
    UploadedRecord(requester, file, UploadFields(None, None, None, None), id, now);
  }

  /** Tags already free of surrounding space come back exactly as written, empty
      pieces included: "calm,,ring" gives ["calm", "", "ring"]. */
  lemma TagsKeepEmptyPieces(parts: seq<string>)
    requires |parts| >= 1 && Join(parts, ',') != ""
    requires forall i :: 0 <= i < |parts| ==> ',' !in parts[i] && IsTrimmed(parts[i])
    ensures ParseTags(Some(Join(parts, ','))) == parts
  {
    SplitJoin(parts, ',');
    TrimAllOfTrimmed(parts);
  }

  // ---------------------------------------------------------------------------
  // delete

  /** The guard of deleteCallTone: a locator starting with neither https:// nor
      http:// names a file of the local uploads directory. */
  predicate IsLocalLocator(url: string) {
    !StartsWith(url, "https://") && !StartsWith(url, "http://")
  }

  /** path.join(backendRoot, '../../', url) relative to the backend root: the
      locator without its leading separators. */
  function DiskPath(url: string): (p: string)
    ensures |p| <= |url| && p == url[|url| - |p|..]
    ensures forall i :: 0 <= i < |url| - |p| ==> url[i] == '/'
    ensures p == [] || p[0] != '/'
  {
    if |url| > 0 && url[0] == '/' then DiskPath(url[1..]) else url
  }

  /** Where a stored file was written on local disk, if it was. */
  function WrittenPaths(f: Storage.StoredFile): set<string> {
    if f.destination.Some? && f.filename.Some? then {f.destination.value + f.filename.value} else {}
  }

  /** A locator under /uploads/ is local, and names the file of that name in
      the uploads directory. */
  lemma UploadsLocator(name: string)
    requires name == [] || name[0] != '/'
    ensures IsLocalLocator("/uploads/" + name)
    ensures DiskPath("/uploads/" + name) == Storage.LocalDestination + name
  {
    var u := "/uploads/" + name;
    assert u[1] == 'u';
    DiffersAt(u, "https://", 1);
    DiffersAt(u, "http://", 1);
    DropFirst("/uploads/", name);
    assert "/uploads/"[1..] == "uploads/";
    assert u[1..] == Storage.LocalDestination + name;
    assert DiskPath(u) == DiskPath(u[1..]);
  }

  /** A string that differs from p at some index of p does not start with p. */
  lemma DiffersAt(u: string, p: string, k: nat)
    requires k < |p| && k < |u| && u[k] != p[k]
    ensures !StartsWith(u, p)
  {
    if |p| <= |u| {
      assert u[..|p|][k] == u[k];
    }
  }

  lemma DropFirst(a: string, b: string)
    requires |a| >= 1
    ensures (a + b)[1..] == a[1..] + b
  {
  }

  /** The file a delete unlinks is the file multer wrote for that upload: a file
      stored on local disk gets a local locator whose disk path is the written
      file. */
  lemma LocalUploadDeletesItsOwnFile(cfg: Storage.UploadConfig, part: Storage.Incoming,
                                     time: nat, rand: nat, url: string)
    requires cfg.backend.LocalDisk?
    requires Storage.Store(cfg, part, time, rand, url).Stored?
    ensures var f := Storage.Store(cfg, part, time, rand, url).file;
      IsLocalLocator(FileUrl(f)) && WrittenPaths(f) == {DiskPath(FileUrl(f))}
  {
    var f := Storage.Store(cfg, part, time, rand, url).file;
    LocalFileLocator(f, Storage.LocalFilename(part.originalname, time, rand));
  }

  lemma LocalFileLocator(f: Storage.StoredFile, name: string)
    requires f.destination == Some(Storage.LocalDestination) && f.filename == Some(name)
    requires f.location.None? && name != [] && name[0] != '/'
    ensures IsLocalLocator(FileUrl(f)) && WrittenPaths(f) == {DiskPath(FileUrl(f))}
  {
    UploadsLocator(name);
  }

  /** An S3 upload whose object URL is absolute is never unlinked locally. */
  lemma S3UploadIsRemote(cfg: Storage.UploadConfig, part: Storage.Incoming,
                         time: nat, rand: nat, url: string)
    requires cfg.backend.S3?
    requires StartsWith(url, "https://") || StartsWith(url, "http://")
    requires Storage.Store(cfg, part, time, rand, url).Stored?
    ensures !IsLocalLocator(FileUrl(Storage.Store(cfg, part, time, rand, url).file))
    ensures WrittenPaths(Storage.Store(cfg, part, time, rand, url).file) == {}
  {
  }

  /** The largest id in use, plus one. */
  function NextFreeId(docs: seq<CallTone>): (n: ToneId)
    ensures forall t :: t in docs ==> t.id < n
  {
    if |docs| == 0 then 0
    else
      var rest := NextFreeId(docs[1..]);
      assert forall t :: t in docs ==> t == docs[0] || t in docs[1..];
      if docs[0].id + 1 > rest then docs[0].id + 1 else rest
  }

  /** Appending a document under an id above every id in use keeps the ids
      unique, and the id is not found before the append. */
  lemma AppendFresh(docs: seq<CallTone>, t: CallTone, n: ToneId)
    requires UniqueIds(docs) && forall x :: x in docs ==> x.id < n && WellFormed(x)
    requires t.id == n && WellFormed(t)
    ensures UniqueIds(docs + [t]) && FindById(docs, n).None?
    ensures forall x :: x in docs + [t] ==> x.id < n + 1 && WellFormed(x)
  {
    var d := docs + [t];
    forall i, j | 0 <= i < j < |d| ensures d[i].id != d[j].id {
      assert d[i] == docs[i];
      if j < |docs| { assert d[j] == docs[j]; } else { assert docs[i] in docs; }
    }
    assert forall x :: x in d ==> x in docs || x == t;
  }

  /** What uploadCallTone does once it has a file: the record UploadAttrs
      describes is created under the fresh id n and appended, with 201 and the
      record; or the schema refuses it, the error is forwarded and the
      collection stays as it was. */
  predicate UploadApplied(before: seq<CallTone>, n: ToneId, requester: UserId, file: Storage.StoredFile,
                          fields: UploadFields, now: int, res: Response, after: seq<CallTone>)
  {
    match Create(UploadAttrs(requester, file, fields), n, now)
    case Created(t) => res == CreatedTone(t) && after == before + [t]
    case Invalid(paths) => res == Forwarded(SchemaInvalid(paths)) && after == before
  }

  // ---------------------------------------------------------------------------
  // the store

  /** What the upload route leaves behind for one file part, given what multer
      made of it. */
  predicate Received(before: seq<CallTone>, n: ToneId, diskBefore: set<string>, requester: UserId,
                     stored: Storage.StoreResult, fields: UploadFields, now: int,
                     res: Response, after: seq<CallTone>, diskAfter: set<string>) {
    match stored
    case Rejected(e) =>
      res == Forwarded(UploadRejected(e)) && after == before && diskAfter == diskBefore
    case Stored(f) =>
      && diskAfter == diskBefore + WrittenPaths(f)
      && UploadApplied(before, n, requester, f, fields, now, res, after)
  }

  class ToneStore {
    /** The CallTone collection, in insertion order. */
    var docs: seq<CallTone>
    /** Each user's selectedCallTone. */
    var selected: map<UserId, ToneId>
    /** The files of the local uploads directory, relative to the backend root. */
    var disk: set<string>
    /** The next id to hand out; above every id in use. */
    var nextId: ToneId
    /** The multer configuration storage.js built from the environment when the
        server started; it never changes afterwards. */
    const cfg: Storage.UploadConfig

    ghost predicate Valid()
      reads this
    {
      && UniqueIds(docs)
      && (forall t :: t in docs ==> t.id < nextId && WellFormed(t))
    }

    /** A store over an existing collection (seeded default and AI tones, earlier
        uploads), every document of which passed the schema, with the upload
        configuration of the environment the server starts in. */
    constructor (env: Storage.Env, seed: seq<CallTone>, files: set<string>)
      requires UniqueIds(seed)
      requires forall t :: t in seed ==> WellFormed(t)
      ensures Valid()
      ensures docs == seed && selected == map[] && disk == files
      ensures cfg == Storage.Configure(env)
    {
      cfg := Storage.Configure(env);
      docs := seed;
      selected := map[];
      disk := files;
      nextId := NextFreeId(seed);
    }

    /** uploadCallTone, after multer: with no file, 400 and nothing changes;
        otherwise the record UploadAttrs describes is created under a fresh id and
        appended, or, when the schema refuses it, the error is forwarded and the
        collection is unchanged. */
    method UploadCallTone(requester: UserId, file: Option<Storage.StoredFile>, fields: UploadFields, now: int)
      returns (res: Response)
      requires Valid()
      modifies this`docs, this`nextId
      ensures Valid()
      ensures file.None? ==> res == Refused(400, NoFileMessage) && docs == old(docs)
      ensures file.Some? ==> UploadApplied(old(docs), old(nextId), requester, file.value, fields, now, res, docs)
      ensures res.CreatedTone? ==> FindById(old(docs), res.tone.id).None?
    {
      if file.None? {
        res := Refused(400, NoFileMessage);
        return;
      }
      var attrs := UploadAttrs(requester, file.value, fields);
      match Create(attrs, nextId, now)
      case Created(t) =>
        AppendFresh(docs, t, nextId);
        docs := docs + [t];
        nextId := nextId + 1;
        res := CreatedTone(t);
      case Invalid(paths) =>
        res := Forwarded(SchemaInvalid(paths));
    }

    /** deleteCallTone: 404 for an unknown id; a tone without an owner makes the
        ownership comparison throw; another user's tone gets 403; in all three
        cases nothing changes. The owner's delete unlinks the local file (only for
        a non-URL locator, and only if unlink succeeds; a failure is swallowed)
        and removes the document in every case. */
    method DeleteCallTone(requester: UserId, id: ToneId, unlinkSucceeds: bool) returns (res: Response)
      requires Valid()
      modifies this`docs, this`disk
      ensures Valid()
      ensures
        match FindById(old(docs), id)
        case None =>
          res == Refused(404, NotFoundMessage) && docs == old(docs) && disk == old(disk)
        case Some(t) =>
          if t.uploadedBy.None? then
            res == Forwarded(OwnerMissing) && docs == old(docs) && disk == old(disk)
          else if t.uploadedBy.value != requester then
            res == Refused(403, ForbiddenMessage) && docs == old(docs) && disk == old(disk)
          else
            && res == Deleted
            && docs == RemoveId(old(docs), id)
            && disk == if IsLocalLocator(t.fileUrl) && unlinkSucceeds
                       then old(disk) - {DiskPath(t.fileUrl)} else old(disk)
    {
      var found := FindById(docs, id);
      if found.None? {
        res := Refused(404, NotFoundMessage);
        return;
      }
      var t := found.value;
      if t.uploadedBy.None? {
        res := Forwarded(OwnerMissing);
        return;
      }
      if t.uploadedBy.value != requester {
        res := Refused(403, ForbiddenMessage);
        return;
      }
      if IsLocalLocator(t.fileUrl) {
        if unlinkSucceeds {
          disk := disk - {DiskPath(t.fileUrl)};
        }
      }
      RemoveIdKeepsUniqueIds(docs, id);
      docs := RemoveId(docs, id);
      res := Deleted;
    }

    /** selectCallTone: 404 for an unknown id; otherwise the requester's pointer
        is set to the id, overwriting any earlier choice, with no ownership or
        visibility check; the collection is untouched. */
    method SelectCallTone(requester: UserId, id: ToneId) returns (res: Response)
      requires Valid()
      modifies this`selected
      ensures Valid()
      ensures
        match FindById(docs, id)
        case None => res == Refused(404, NotFoundMessage) && selected == old(selected)
        case Some(t) => res == SelectedTone(t) && selected == old(selected)[requester := id]
    {
      var found := FindById(docs, id);
      if found.None? {
        res := Refused(404, NotFoundMessage);
        return;
      }
      selected := selected[requester := id];
      res := SelectedTone(found.value);
    }

    /** POST /upload as routed: upload.single('file') then uploadCallTone. A file
        part multer refuses is forwarded before the controller runs, leaving the
        collection and the disk as they were; an accepted part is written (to
        disk for the local variant) and then handed to UploadCallTone, so a file
        the schema then refuses stays on disk. */
    method ReceiveUpload(requester: UserId, part: Option<Storage.Incoming>,
                         fields: UploadFields, now: int, time: nat, rand: nat, objectUrl: string)
      returns (res: Response)
      requires Valid()
      modifies this`docs, this`nextId, this`disk
      ensures Valid()
      ensures part.None? ==> res == Refused(400, NoFileMessage) && docs == old(docs) && disk == old(disk)
      ensures part.Some? ==>
        Received(old(docs), old(nextId), old(disk), requester, Storage.Store(cfg, part.value, time, rand, objectUrl),
                 fields, now, res, docs, disk)
    {
      if part.None? {
        res := UploadCallTone(requester, None, fields, now);
        return;
      }
      var stored := Storage.Store(cfg, part.value, time, rand, objectUrl);
      if stored.Rejected? {
        res := Forwarded(UploadRejected(stored.error));
        return;
      }
      disk := disk + WrittenPaths(stored.file);
      res := UploadCallTone(requester, Some(stored.file), fields, now);
    }
  }
}
