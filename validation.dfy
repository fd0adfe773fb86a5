/** The two Express middlewares of backend/src/middleware/validation.js: `validate`
    turns the express-validator error list into a 400 response, and
    `validateFile` guards on the presence and size of the uploaded file. */
module Validation {
  import opened Strings
  import Storage

  /** One express-validator error: the offending parameter and its message. */
  datatype CheckError = CheckError(param: string, msg: string)

  /** One entry of the response's `errors` list. */
  datatype FieldError = FieldError(field: string, message: string)

  datatype Body =
    | Errors(errors: seq<FieldError>)
    | Message(text: string)
      /** "File size exceeds maximum limit of ...MB"; the MB figure is a float
          division and is kept as the byte limit it is computed from. */
    | SizeLimitMessage(maxSize: int)

  /** What a middleware does: pass control on with next(), or respond. */
  datatype Verdict = Next | Respond(status: int, body: Body)

  const NoFileMessage: string := "No file uploaded"

  function ToFieldError(e: CheckError): FieldError {
    FieldError(e.param, e.msg)
  }

  /** validate: next() iff there are no errors; otherwise a 400 whose list holds
      one {field, message} per error, in the same order. */
  function Validate(errors: seq<CheckError>): (r: Verdict)
    ensures r.Next? <==> errors == []
    ensures r.Respond? ==> r.status == 400 && r.body.Errors?
    ensures r.Respond? ==>
      (&& |r.body.errors| == |errors|
       && forall i :: 0 <= i < |errors| ==>
            r.body.errors[i].field == errors[i].param && r.body.errors[i].message == errors[i].msg)
  {
    if errors == [] then Next
    else Respond(400, Errors(seq(|errors|, i requires 0 <= i < |errors| => ToFieldError(errors[i]))))
  }

  /** validateFile: with no file, a 400 "No file uploaded"; with a file larger
      than parseInt(MAX_FILE_SIZE) || 10 MiB, a 400 naming the limit; otherwise
      next(). A file exactly at the limit passes. */
  function ValidateFile(file: Option<Storage.StoredFile>, env: Storage.Env): (r: Verdict)
    ensures r.Next? <==> file.Some? && file.value.size <= Storage.MaxFileSize(env)
    ensures file.None? ==> r == Respond(400, Message(NoFileMessage))
    ensures file.Some? && r.Respond? ==> r == Respond(400, SizeLimitMessage(Storage.MaxFileSize(env)))
  {
    if file.None? then Respond(400, Message(NoFileMessage))
    else
      var maxSize := Storage.MaxFileSize(env);
      if file.value.size > maxSize then Respond(400, SizeLimitMessage(maxSize))
      else Next
  }

  /** validateFile never refuses a file multer has already stored under the same
      environment: the two size checks agree, so the guard is redundant behind
      upload.single('file'). */
  lemma ValidateFilePassesStoredFiles(env: Storage.Env, f: Storage.Incoming, time: nat, rand: nat, url: string)
    requires Storage.Store(Storage.Configure(env), f, time, rand, url).Stored?
    ensures ValidateFile(Some(Storage.Store(Storage.Configure(env), f, time, rand, url).file), env) == Next
  {
  }

  /** With MAX_FILE_SIZE unset, 10 MiB passes and one byte more is refused. */
  lemma ValidateFileDefaultBoundary(env: Storage.Env, file: Storage.StoredFile)
    requires env.maxFileSize.None?
    ensures file.size == Storage.DefaultMaxFileSize ==> ValidateFile(Some(file), env) == Next
    ensures file.size == Storage.DefaultMaxFileSize + 1 ==>
      ValidateFile(Some(file), env) == Respond(400, SizeLimitMessage(Storage.DefaultMaxFileSize))
  {
  }
}
