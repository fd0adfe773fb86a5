/** The upload form of frontend/src/components/FileUploader.js: the component's
    state (file, title, description, isPublic, uploading, error) as the fields
    of a class, the change handler of the file input and the submit handler.
    The request the form sends is returned as a value and the server's answer
    is a parameter; the functions after the class relate what the form sends
    to what the server does with it. */
module Uploader {
  import opened Strings
  import Storage
  import ToneSchema
  import ToneController

  /** The browser's File object: its name, its declared MIME type, its size. */
  datatype ClientFile = ClientFile(name: string, mimeType: string, size: nat)

  /** The multipart body handleSubmit builds; FormData turns the checkbox value
      into the text "true" or "false". */
  datatype FormData = FormData(file: ClientFile, title: string, description: string, isPublic: string)

  /** What the awaited upload request ends with: success, or an error whose
      response may carry a message. */
  datatype UploadOutcome = Succeeded | FailedWith(message: Option<string>)

  const ValidTypes: seq<string> := ["audio/mpeg", "audio/mp3", "audio/wav", "audio/ogg"]
  const MaxSize: nat := 10 * 1024 * 1024
  const InvalidTypeMessage: string := "Invalid file type. Please upload an audio file (MP3, WAV, or OGG)."
  const TooLargeMessage: string := "File size exceeds 10MB limit."
  const NoFileMessage: string := "Please select a file to upload"
  const UploadFailedMessage: string := "Upload failed"

  /** The client-side checks of a chosen file, in their order: the type first,
      then the size; a file of exactly 10 MiB passes. */
  function FileError(f: ClientFile): (r: Option<string>)
    ensures r.None? <==> f.mimeType in ValidTypes && f.size <= MaxSize
    ensures f.mimeType !in ValidTypes ==> r == Some(InvalidTypeMessage)
    ensures f.mimeType in ValidTypes && f.size > MaxSize ==> r == Some(TooLargeMessage)
  {
    if f.mimeType !in ValidTypes then Some(InvalidTypeMessage)
    else if f.size > MaxSize then Some(TooLargeMessage)
    else None
  }

  /** title || file.name: the form's title, or the whole file name when the
      title is empty. */
  function SubmittedTitle(title: string, f: ClientFile): (r: string)
    ensures r == "" ==> title == "" && f.name == ""
    ensures title != "" ==> r == title
    ensures title == "" ==> r == f.name
  {
    if title != "" then title else f.name
  }

  /** How FormData writes the checkbox value. */
  function Serialize(b: bool): (r: string)
    ensures (r == "true") <==> b
  {
    if b then "true" else "false"
  }

  /** err.response?.data?.message || 'Upload failed'. */
  function FailureMessage(message: Option<string>): (r: string)
    ensures r != ""
    ensures Truthy(message) ==> r == message.value
    ensures !Truthy(message) ==> r == UploadFailedMessage
  {
    if Truthy(message) then message.value else UploadFailedMessage
  }

  class FileUploader {
    var file: Option<ClientFile>
    var title: string
    var description: string
    var isPublic: bool
    var uploading: bool
    var error: string

    /** Every file the form holds has passed the type and size checks. */
    predicate Valid()
      reads this
    {
      file.Some? ==> FileError(file.value).None?
    }

    /** The initial state of the component: nothing chosen, empty fields,
        private, idle, no error. */
    constructor ()
      ensures Valid()
      ensures file.None? && title == "" && description == "" && !isPublic
      ensures !uploading && error == ""
    {
      file := None;
      title := "";
      description := "";
      isPublic := false;
      uploading := false;
      error := "";
    }

    /** handleFileChange: an event without a file changes nothing. A file of the
        wrong type, or else one that is too large, sets the matching error and
        clears the held file. An accepted file is held, the error is cleared, and
        an empty title becomes the file name without its final extension; a
        title already typed is kept. */
    method HandleFileChange(selected: Option<ClientFile>)
      requires Valid()
      modifies this`file, this`title, this`error
      ensures Valid()
      ensures selected.None? ==> file == old(file) && title == old(title) && error == old(error)
      ensures selected.Some? ==>
        match FileError(selected.value)
        case Some(msg) =>
          error == msg && file.None? && title == old(title)
        case None =>
          && error == "" && file == selected
          && title == (if old(title) == "" then StripClientExt(selected.value.name) else old(title))
    {
      if selected.None? {
        return;
      }
      var f := selected.value;
      if f.mimeType !in ValidTypes {
        error := InvalidTypeMessage;
        file := None;
        return;
      }
      if f.size > MaxSize {
        error := TooLargeMessage;
        file := None;
        return;
      }
      file := Some(f);
      error := "";
      if title == "" {
        title := StripClientExt(f.name);
      }
    }

    /** handleSubmit: with no file held the error asks for one and nothing is
        sent. Otherwise the form sends the file, the title (or the file name),
        the description and the checkbox value. A successful upload resets the
        fields; a failed one keeps them and shows the server's message or
        "Upload failed". The form is not uploading afterwards either way. */
    method HandleSubmit(outcome: UploadOutcome) returns (sent: Option<FormData>)
      requires Valid()
      modifies this
      ensures Valid()
      ensures old(file).None? ==>
        && sent.None? && error == NoFileMessage
        && file == old(file) && title == old(title) && description == old(description)
        && isPublic == old(isPublic) && uploading == old(uploading)
      ensures old(file).Some? ==>
        && sent == Some(FormData(old(file).value, SubmittedTitle(old(title), old(file).value),
                                 old(description), Serialize(old(isPublic))))
        && !uploading
        && match outcome
           case Succeeded =>
             file.None? && title == "" && description == "" && !isPublic && error == ""
           case FailedWith(message) =>
             && file == old(file) && title == old(title) && description == old(description)
             && isPublic == old(isPublic) && error == FailureMessage(message)
      ensures sent.Some? ==> FileError(sent.value.file).None?
    {
      if file.None? {
        error := NoFileMessage;
        return None;
      }
      uploading := true;
      error := "";
      var form := FormData(file.value, SubmittedTitle(title, file.value), description, Serialize(isPublic));
      sent := Some(form);
      match outcome {
        case Succeeded =>
          file := None;
          title := "";
          description := "";
          isPublic := false;
        case FailedWith(message) =>
          error := FailureMessage(message);
      }
      uploading := false;
    }
  }

  // ---------------------------------------------------------------------------
  // the form against the server

  /** The text fields the controller reads from a submitted form; the form
      sends no tags. */
  function FieldsOf(form: FormData): ToneController.UploadFields
  {
    ToneController.UploadFields(Some(form.title), Some(form.description), Some(form.isPublic), None)
  }

  /** Under the server's default configuration (no ALLOWED_FILE_TYPES, no
      MAX_FILE_SIZE) the client's checks and the server's filter and limit agree:
      a file passes the form iff the server stores it. */
  lemma ClientChecksMatchDefaultServer(env: Storage.Env, f: ClientFile, time: nat, rand: nat, url: string)
    requires !Truthy(env.allowedFileTypes) && env.maxFileSize.None?
    ensures FileError(f).None?
        <==> Storage.Store(Storage.Configure(env), Storage.Incoming(f.name, f.mimeType, f.size), time, rand, url).Stored?
  {
    Storage.DefaultAllowList(env);
    assert Storage.MaxFileSize(env) == MaxSize;
  }

  /** The checkbox survives the round trip: the record the server builds from a
      submitted form is public iff the box was ticked. */
  lemma VisibilityRoundTrip(requester: ToneSchema.UserId, stored: Storage.StoredFile,
                            f: ClientFile, title: string, description: string, isPublic: bool)
    ensures var form := FormData(f, title, description, Serialize(isPublic));
      ToneController.UploadAttrs(requester, stored, FieldsOf(form)).isPublic == Some(isPublic)
  {
    var form := FormData(f, title, description, Serialize(isPublic));
    assert FieldsOf(form).isPublic == Some(Serialize(isPublic));
  }

  /** The server titles the record with what the form showed as its title, or
      with the file name when the title was empty, trimmed. */
  lemma ServerTitleOfSubmission(requester: ToneSchema.UserId, stored: Storage.StoredFile,
                                f: ClientFile, title: string, description: string, isPublic: string,
                                id: ToneSchema.ToneId, now: int)
    requires stored.originalname == f.name
    requires var form := FormData(f, SubmittedTitle(title, f), description, isPublic);
      ToneSchema.Create(ToneController.UploadAttrs(requester, stored, FieldsOf(form)), id, now).Created?
    ensures var form := FormData(f, SubmittedTitle(title, f), description, isPublic);
      ToneSchema.Create(ToneController.UploadAttrs(requester, stored, FieldsOf(form)), id, now).tone.title
      == Trim(if title != "" then title else f.name)
  {
    var form := FormData(f, SubmittedTitle(title, f), description, isPublic);
    var fields := FieldsOf(form);
    ToneController.UploadedRecord(requester, stored, fields, id, now);
  }

  /** The two sides derive different default titles from "stem.ext": the form
      fills in "stem" when a file is chosen, while the server, given no title,
      uses the whole name with its extension. */
  lemma DefaultTitlesDiffer(requester: ToneSchema.UserId, stem: string, ext: string, mimetype: string,
                            id: ToneSchema.ToneId, now: int)
    requires |stem| > 0 && '/' !in stem && '/' !in ext && '.' !in ext && ext != ""
    requires IsTrimmed(stem + "." + ext) && mimetype != ""
    ensures StripClientExt(stem + "." + ext) == stem
    ensures var stored := Storage.StoredFile(stem + "." + ext, mimetype, 0, None, None, None, None);
      var r := ToneSchema.Create(ToneController.UploadAttrs(requester, stored,
                 ToneController.UploadFields(None, None, None, None)), id, now);
      r.Created? && r.tone.title == stem + "." + ext
  {
    StripClientExtOfPlainName(stem, ext);
    var stored := Storage.StoredFile(stem + "." + ext, mimetype, 0, None, None, None, None);
    ToneController.DefaultTitleIsFileName(requester, stored, id, now);
  }
}
