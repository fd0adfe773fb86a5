/** The CallTone document schema (backend/src/models/CallTone.js): the fields a
    stored call tone has, which of them are required, which are trimmed, their
    defaults and the category enumeration. */
module ToneSchema {
  import opened Strings

  /** The string form of a user's ObjectId. */
  type UserId = string

  /** A document id; ObjectId generation itself is not modelled. */
  type ToneId = nat

  datatype Category = UserUploaded | AIGenerated | Default

  function CategoryName(c: Category): string {
    match c
    case UserUploaded => "user-uploaded"
    case AIGenerated => "ai-generated"
    case Default => "default"
  }

  /** The enum validator: a category string is accepted iff it is one of the
      three names. */
  function ParseCategory(s: string): (r: Option<Category>)
    ensures r.Some? ==> CategoryName(r.value) == s
    ensures r.None? ==> forall c: Category :: CategoryName(c) != s
  {
    if s == "user-uploaded" then Some(UserUploaded)
    else if s == "ai-generated" then Some(AIGenerated)
    else if s == "default" then Some(Default)
    else None
  }

  /** A stored call-tone document. */
  datatype CallTone = CallTone(
    id: ToneId,
    title: string,
    description: Option<string>,
    fileUrl: string,
    fileType: string,
    fileSize: int,
    duration: Option<int>,
    uploadedBy: Option<UserId>,
    isAIGenerated: bool,
    isPublic: bool,
    category: Category,
    tags: seq<string>,
    createdAt: int)

  /** What a document the schema accepted looks like: the required strings are
      non-empty, and the trimmed strings carry no surrounding white space. */
  predicate WellFormed(t: CallTone) {
    && t.title != "" && IsTrimmed(t.title)
    && (t.description.Some? ==> IsTrimmed(t.description.value))
    && t.fileUrl != ""
    && t.fileType != ""
    && (forall i :: 0 <= i < |t.tags| ==> IsTrimmed(t.tags[i]))
  }

  /** The fields handed to CallTone.create; None is a field left undefined. */
  datatype Attrs = Attrs(
    title: Option<string>,
    description: Option<string>,
    fileUrl: Option<string>,
    fileType: Option<string>,
    fileSize: Option<int>,
    duration: Option<int>,
    uploadedBy: Option<UserId>,
    isAIGenerated: Option<bool>,
    isPublic: Option<bool>,
    category: Option<string>,
    tags: seq<string>,
    createdAt: Option<int>)

  /** The schema paths whose validators can fail. */
  datatype Path = TitlePath | FileUrlPath | FileTypePath | FileSizePath | CategoryPath

  function TrimOpt(v: Option<string>): Option<string> {
    match v
    case None => None
    case Some(s) => Some(Trim(s))
  }

  /** Mongoose's required validator for a String path: present and non-empty. */
  predicate PresentString(v: Option<string>) {
    v.Some? && v.value != ""
  }

  /** The paths that fail validation; title is trimmed before it is checked. */
  function Failures(a: Attrs): set<Path> {
    (if PresentString(TrimOpt(a.title)) then {} else {TitlePath})
    + (if PresentString(a.fileUrl) then {} else {FileUrlPath})
    + (if PresentString(a.fileType) then {} else {FileTypePath})
    + (if a.fileSize.Some? then {} else {FileSizePath})
    + (if a.category.Some? && ParseCategory(a.category.value).None? then {CategoryPath} else {})
  }

  /** Each tag trimmed, in order. */
  function TrimAll(tags: seq<string>): (r: seq<string>)
    ensures |r| == |tags|
    ensures forall i :: 0 <= i < |r| ==> r[i] == Trim(tags[i]) && IsTrimmed(r[i])
  {
    if |tags| == 0 then [] else [Trim(tags[0])] + TrimAll(tags[1..])
  }

  /** Tags with no surrounding white space are left as they are. */
  lemma {:induction false} TrimAllOfTrimmed(tags: seq<string>)
    requires forall i :: 0 <= i < |tags| ==> IsTrimmed(tags[i])
    ensures TrimAll(tags) == tags
  {
    if |tags| > 0 {
      TrimOfTrimmed(tags[0]);
      TrimAllOfTrimmed(tags[1..]);
      assert [tags[0]] + tags[1..] == tags;
    }
  }

  datatype CreateResult = Created(tone: CallTone) | Invalid(paths: set<Path>)

  /** CallTone.create(attrs): casts (trimming title, description and each tag),
      fills the defaults, then validates; `now` is the creation time Date.now
      gives and `id` the fresh ObjectId. */
  function Create(a: Attrs, id: ToneId, now: int): (r: CreateResult)
    ensures r.Created? <==> Failures(a) == {}
    ensures r.Invalid? ==> r.paths == Failures(a) && r.paths != {}
    ensures r.Created? ==> WellFormed(r.tone) && r.tone.id == id
  {
    var fails := Failures(a);
    if fails != {} then Invalid(fails)
    else
      assert TitlePath !in fails && FileUrlPath !in fails && FileTypePath !in fails;
      assert FileSizePath !in fails && CategoryPath !in fails;
      Created(CallTone(
        id := id,
        title := Trim(a.title.value),
        description := TrimOpt(a.description),
        fileUrl := a.fileUrl.value,
        fileType := a.fileType.value,
        fileSize := a.fileSize.value,
        duration := a.duration,
        uploadedBy := a.uploadedBy,
        isAIGenerated := if a.isAIGenerated.Some? then a.isAIGenerated.value else false,
        isPublic := if a.isPublic.Some? then a.isPublic.value else false,
        category := if a.category.Some? then ParseCategory(a.category.value).value else UserUploaded,
        tags := TrimAll(a.tags),
        createdAt := if a.createdAt.Some? then a.createdAt.value else now))
  }

  /** The defaults: isAIGenerated and isPublic false, category user-uploaded,
      createdAt the creation time; duration and uploadedBy stay absent unless
      supplied; every tag is trimmed. */
  lemma CreateDefaults(a: Attrs, id: ToneId, now: int)
    requires Create(a, id, now).Created?
    ensures var t := Create(a, id, now).tone;
      && (a.isAIGenerated.None? ==> !t.isAIGenerated)
      && (a.isPublic.None? ==> !t.isPublic)
      && (a.category.None? ==> t.category == UserUploaded)
      && (a.category.Some? ==> CategoryName(t.category) == a.category.value)
      && (a.createdAt.None? ==> t.createdAt == now)
      && t.duration == a.duration && t.uploadedBy == a.uploadedBy
      && t.id == id && t.title == Trim(a.title.value) && t.description == TrimOpt(a.description)
      && t.fileUrl == a.fileUrl.value && t.fileType == a.fileType.value && t.fileSize == a.fileSize.value
      && (a.isAIGenerated.Some? ==> t.isAIGenerated == a.isAIGenerated.value)
      && (a.isPublic.Some? ==> t.isPublic == a.isPublic.value)
      && (a.createdAt.Some? ==> t.createdAt == a.createdAt.value)
      && t.tags == TrimAll(a.tags)
  {
  }

  /** A title made only of white space is trimmed to "" and fails the required
      check, and so does a missing one. */
  lemma BlankTitleRejected(a: Attrs, id: ToneId, now: int)
    requires a.title.None? || AllWhitespace(a.title.value)
    ensures Create(a, id, now).Invalid? && TitlePath in Create(a, id, now).paths
  {
  }

  /** The category enumeration round-trips through its names, and nothing else
      is accepted. */
  lemma CategoryNamesRoundTrip(c: Category, s: string)
    ensures ParseCategory(CategoryName(c)) == Some(c)
    ensures ParseCategory(s).Some? <==> s in {"user-uploaded", "ai-generated", "default"}
  {
  }
}
