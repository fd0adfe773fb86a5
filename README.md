# Call-tone asset lifecycle

A Dafny model of the call-tone part of the AI Wireless Call Tones app. It covers:
- the backend's upload configuration (S3 or local disk, the MIME allow-list, the size limit, the generated storage names);
- the CallTone document schema;
- the two validation middlewares;
- the six call-tone handlers;
- the browser's upload form.

The model is organised as follows:

- `strings.dfy`, module `Strings`: the JavaScript string operations the code relies on, each as the code uses it. These are `trim`, `split` on one separator, the global `parseInt`, `path.extname`, and the regular expression `/\.[^/.]+$/` the form uses to drop an extension. `Join` is not used by the code; it is there to state that `split` loses nothing.
- `schema.dfy`, module `ToneSchema`: the CallTone document and `CallTone.create`. Create casts the fields, trims the title, the description and each tag, fills the defaults, then runs the required and enum validators.
- `storage.dfy`, module `Storage`: `isS3Configured`, the `limits.fileSize` and `fileFilter` shared by both multer variants, and the S3 key and local file name. `Store` summarises `upload.single('file')`: the filter runs, then the limit, then the file is written.
- `validation.js` is modelled in `validation.dfy`, module `Validation`, as the `validate` and `validateFile` middlewares.
- `controller.dfy`, module `ToneController`, in two parts:
  - The read handlers are functions over the collection. The collection is a sequence of documents in insertion order with unique ids.
  - The writing handlers (upload, delete, select) are methods of the class `ToneStore`. Its fields are the collection, the users' `selectedCallTone` pointers, the files in the local uploads directory, an id counter, and the multer configuration built from the environment when the store is created. `ReceiveUpload` is the upload route with that multer configuration in front of the controller.
- `uploader.dfy`, module `Uploader`: the `FileUploader` component as a class whose fields are its React state. After the class come lemmas that relate what the form sends to what the server stores.

Clocks, random numbers, the outcome of `fs.unlink`, the URL S3 reports and the server's answer to the form are parameters. New document ids come from the store's `nextId` counter, which stands for ObjectId generation.

Mongo's `sort({createdAt: -1})` is modelled as a stable insertion sort, newest first, over the filtered documents. Mongo itself does not define how documents with equal `createdAt` are ordered.

Behaviour of the code worth knowing, all of which the model keeps:
- Without a title the server names the record after the whole original file name, extension included. The form instead fills in the name without its extension.
- Deleting a tone that has no `uploadedBy` makes the ownership comparison throw, so the request is forwarded to the error handler rather than answered with 403.
- `ALLOWED_FILE_TYPES` is split at commas without trimming, and `MAX_FILE_SIZE=10MB` means ten bytes.
- A file multer stored stays on disk when the schema then refuses the record.
- Selecting a tone checks neither its owner nor its visibility.

## Model

| member | source | states |
|---|---|---|
| Strings.Trim | backend/src/models/CallTone.js:4-8 | the trimmed string has no white space at either end, and it is empty exactly when the input is all white space |
| Strings.TrimRemovesSurroundingSpace | backend/src/models/CallTone.js:4-8 | the trimmed string is the input with a white-space prefix and a white-space suffix removed, the prefix being all of its leading white space |
| Strings.TrimOfTrimmed | backend/src/models/CallTone.js:4-8 | trim leaves a string unchanged iff it has no surrounding white space |
| Strings.Split | backend/src/config/storage.js:40 | split gives at least one piece, and no piece holds the separator |
| Strings.JoinSplit | backend/src/controllers/callToneController.js:94 | joining the pieces of a split with the separator gives back the original string |
| Strings.SplitJoin | backend/src/controllers/callToneController.js:94 | splitting pieces that were joined with a separator they do not contain gives back the pieces, empty ones included |
| Strings.Decimal | backend/src/config/storage.js:32 | the decimal rendering of a number is a non-empty run of digits with no leading zero |
| Strings.DecimalInjective | backend/src/config/storage.js:32 | distinct numbers have distinct decimal renderings |
| Strings.DigitRun | backend/src/config/storage.js:37 | parseInt reads the longest leading run of digits and stops at the first non-digit |
| Strings.ParseInt | backend/src/config/storage.js:37 | parseInt yields a number only when, after the leading white space and one optional sign, the text starts with a decimal digit; "abc", "ten" or "" are NaN |
| Strings.ParseIntZeroPadded | backend/src/config/storage.js:37 | leading zeros do not change the number read: "007" is 7, and a zero prefix never makes the text hexadecimal |
| Strings.ParseIntOfWrittenNumber | backend/src/config/storage.js:37 | parseInt skips leading white space and ignores any text after the digits: " 5242880" and "10MB" give 5242880 and 10 |
| Strings.ParseIntOfSignedNumber | backend/src/config/storage.js:37 | a '-' between the white space and the digits negates the number and a '+' keeps it |
| Strings.ParseIntDecimal | backend/src/config/storage.js:37 | parseInt of a decimal rendering is the number rendered |
| Strings.LastIndexOf | frontend/src/components/FileUploader.js:36 | the index returned holds the character and no later index does; -1 when it is absent |
| Strings.Extname | backend/src/config/storage.js:33 | path.extname is a suffix of the last path component; it is empty exactly when that component has no '.' after its first character or is "..", and otherwise it is a '.' followed by characters with no '.' or '/' |
| Strings.ExtnameOfPlainName | backend/src/config/storage.js:33 | path.extname of "stem.ext" is ".ext" |
| Strings.StripClientExt | frontend/src/components/FileUploader.js:36 | the stripped name is a prefix of the name; when it differs, a '.' and at least one character with no '.' or '/' were removed; conversely, a name ending in '.' and one or more characters without '.' or '/' loses exactly that ending |
| Strings.StripClientExtOfPlainName | frontend/src/components/FileUploader.js:36 | stripping "stem.ext" gives "stem" |
| ToneSchema.ParseCategory | backend/src/models/CallTone.js:40-44 | the enum validator accepts a string iff it names a category, and gives that category |
| ToneSchema.CategoryNamesRoundTrip | backend/src/models/CallTone.js:40-44 | every category name maps back to its category; exactly the three names are accepted |
| ToneSchema.TrimAll | backend/src/models/CallTone.js:45-48 | each tag is trimmed in place; the list keeps its length and order |
| ToneSchema.TrimAllOfTrimmed | backend/src/models/CallTone.js:45-48 | tags without surrounding white space are stored as given |
| ToneSchema.Create | backend/src/models/CallTone.js:3-53 | create succeeds iff no validator fails; a refusal names every failing path; an accepted document is well formed (required strings non-empty, trimmed fields trimmed) |
| ToneSchema.CreateDefaults | backend/src/models/CallTone.js:32-52 | isAIGenerated and isPublic default to false, category to user-uploaded, createdAt to now; given values are kept; title, description and tags are trimmed |
| ToneSchema.BlankTitleRejected | backend/src/models/CallTone.js:4-8 | a missing or all-white-space title fails the required title check |
| Storage.ChooseBackend | backend/src/config/storage.js:7-21 | S3 is chosen iff the key id, the secret and the bucket are all set and non-empty; the region defaults to us-east-1 |
| Storage.MaxFileSize | backend/src/config/storage.js:37 | NaN and 0 fall back to 10 MiB, any other parsed value is the limit, and the limit is never 0 |
| Storage.MaxFileSizeOfDecimal | backend/src/config/storage.js:37 | a decimal MAX_FILE_SIZE is the limit; unset or 0 gives 10 MiB |
| Storage.MaxFileSizeIgnoresUnitSuffix | backend/src/config/storage.js:37 | MAX_FILE_SIZE=10MB is a 10-byte limit |
| Storage.DefaultAllowList | backend/src/config/storage.js:40 | without ALLOWED_FILE_TYPES the allow-list is exactly audio/mpeg, audio/mp3, audio/wav, audio/ogg |
| Storage.FileFilterOfList | backend/src/config/storage.js:39-46 | with a comma-joined list the filter accepts exactly its pieces |
| Storage.FileFilterDoesNotTrim | backend/src/config/storage.js:40-41 | a piece " m" in the list accepts " m" but not m |
| Storage.UniqueSuffixInjective | backend/src/config/storage.js:32 | the time-random suffix determines the time and the random number |
| Storage.S3KeyInjective | backend/src/config/storage.js:31-34 | for one extension, different (time, random) pairs give different S3 keys |
| Storage.LocalFilenameInjective | backend/src/config/storage.js:54-57 | for one extension, different (time, random) pairs give different local file names |
| Storage.KeysKeepExtension | backend/src/config/storage.js:33 | the S3 key and the local file name both end with the original ".ext" |
| Storage.Store | backend/src/config/storage.js:24-73 | a file is stored iff the filter accepts its type and its size is within the limit; the type check decides the error first; name, type and size are kept; on S3 it gets the key calltones/time-rand.ext and the reported URL, on local disk the destination uploads/ and the name calltone-time-rand.ext |
| Storage.BackendsShareFilterAndLimit | backend/src/config/storage.js:60-72 | both backends accept or refuse the same files, for the same reason |
| Storage.DefaultLimitBoundary | backend/src/config/storage.js:37 | by default a 10 MiB audio file is stored and one byte more is refused as too large |
| Validation.Validate | backend/src/middleware/validation.js:4-18 | next() iff there are no errors; otherwise 400 with one {field, message} per error, in order |
| Validation.ValidateFile | backend/src/middleware/validation.js:21-40 | next() iff a file is present and within the limit; a missing file gets 400 "No file uploaded"; an oversized one gets 400 naming the limit |
| Validation.ValidateFilePassesStoredFiles | backend/src/middleware/validation.js:30-38 | validateFile never refuses a file multer stored under the same environment |
| Validation.ValidateFileDefaultBoundary | backend/src/middleware/validation.js:30-38 | by default exactly 10 MiB passes and one byte more is refused |
| ToneController.FindById | backend/src/controllers/callToneController.js:49 | a found document is in the collection and has the id; otherwise no document has it |
| ToneController.RemoveId | backend/src/controllers/callToneController.js:138 | afterwards the collection holds exactly the documents with another id |
| ToneController.RemoveIdKeepsUniqueIds | backend/src/controllers/callToneController.js:138 | deleting keeps the ids unique |
| ToneController.RemoveAbsentId | backend/src/controllers/callToneController.js:138 | deleting an id nobody has changes nothing |
| ToneController.RemoveIdRemovesOne | backend/src/controllers/callToneController.js:138 | with unique ids, deleting a present id removes exactly one document |
| ToneController.RemovedIdNotFound | backend/src/controllers/callToneController.js:111-118 | after the delete the id is not found |
| ToneController.Filter | backend/src/controllers/callToneController.js:30 | the query keeps every matching document as often as it occurs, and nothing else |
| ToneController.InsertNewest | backend/src/controllers/callToneController.js:32 | inserting into a newest-first list keeps it newest first and adds exactly that document |
| ToneController.SortNewestFirst | backend/src/controllers/callToneController.js:32 | the sorted list is newest first and a permutation of its input |
| ToneController.GetAllCallTones | backend/src/controllers/callToneController.js:9-38 | 200 with the visible documents, each as often as in the collection, newest first, with their count |
| ToneController.GetCallTone | backend/src/controllers/callToneController.js:47-62 | the document with the id, or 404 "Call tone not found" exactly when no document has it |
| ToneController.GetAIGeneratedCallTones | backend/src/controllers/callToneController.js:181-192 | 200 with exactly the public documents flagged isAIGenerated, newest first, with their count |
| ToneController.ListingIsUnion | backend/src/controllers/callToneController.js:21-28 | without isPublic=true a tone is listed iff it is public or the requester's own |
| ToneController.ListingPublicOnly | backend/src/controllers/callToneController.js:21-22 | with isPublic=true a tone is listed iff it is public |
| ToneController.ListingCategoryNarrows | backend/src/controllers/callToneController.js:16-18 | a category keeps exactly the listed tones of that category |
| ToneController.PrivateToneHiddenFromOthers | backend/src/controllers/callToneController.js:20-28 | another user's private tone is never listed |
| ToneController.AIListFollowsFlagNotCategory | backend/src/controllers/callToneController.js:183-186 | a public tone is in the AI list iff its isAIGenerated flag is set, whatever its category or owner |
| ToneController.FileUrl | backend/src/controllers/callToneController.js:83 | the locator is the S3 location when it is set and non-empty, else "/uploads/" followed by the stored file name ("undefined" without one); it is never empty |
| ToneController.UploadedRecord | backend/src/controllers/callToneController.js:80-95 | the record's title (or the original name), locator, type, size, owner, category user-uploaded, isPublic iff the text is exactly "true", and comma-split trimmed tags |
| ToneController.UploadAcceptedIff | backend/src/controllers/callToneController.js:85-95 | the create succeeds iff the chosen title is not blank and the mimetype is not empty |
| ToneController.DefaultTitleIsFileName | backend/src/controllers/callToneController.js:86 | without a title the record is titled with the whole original name, extension included |
| ToneController.TagsKeepEmptyPieces | backend/src/controllers/callToneController.js:94 | the tags are the comma-separated pieces, empty pieces kept |
| ToneController.DiskPath | backend/src/controllers/callToneController.js:130 | the disk path is the locator with its leading '/' characters removed, and nothing else removed |
| ToneController.UploadsLocator | backend/src/controllers/callToneController.js:129-130 | "/uploads/name" is a local locator whose disk path is uploads/name |
| ToneController.LocalUploadDeletesItsOwnFile | backend/src/controllers/callToneController.js:83 | for a local upload, deleting unlinks exactly the file multer wrote |
| ToneController.S3UploadIsRemote | backend/src/controllers/callToneController.js:129 | an S3 upload with an http(s) URL is never unlinked and wrote no local file |
| ToneController.NextFreeId | backend/src/controllers/callToneController.js:85 | the fresh id is above every id in use |
| ToneController.AppendFresh | backend/src/controllers/callToneController.js:85 | appending a document with a fresh id keeps the ids unique and every document well formed |
| ToneController.ToneStore.constructor | backend/src/models/CallTone.js:3-53 | a store over a collection of well-formed documents with unique ids, with no selections, and with the upload configuration of the given environment |
| ToneController.ToneStore.UploadCallTone | backend/src/controllers/callToneController.js:71-104 | no file: 400 "Please upload a file" and nothing changes; otherwise the created record is appended under a fresh id with 201, or the schema error is forwarded and the collection is unchanged |
| ToneController.ToneStore.DeleteCallTone | backend/src/controllers/callToneController.js:109-147 | unknown id 404; no owner forwards the error; another owner 403, in each case nothing changes; the owner's delete unlinks a local file only when unlink succeeds and always removes the document |
| ToneController.ToneStore.SelectCallTone | backend/src/controllers/callToneController.js:152-172 | unknown id 404 and no change; otherwise the requester's pointer is overwritten with the id, with no ownership check |
| ToneController.ToneStore.ReceiveUpload | backend/src/routes/callToneRoutes.js:22 | under the store's configuration, a part multer refuses is forwarded with nothing changed; an accepted part is written to disk and then goes through uploadCallTone, and stays on disk if the schema refuses it |
| Uploader.FileError | frontend/src/components/FileUploader.js:16-29 | a file passes iff its type is one of the four audio types and its size is at most 10 MiB; a wrong type is reported before the size |
| Uploader.SubmittedTitle | frontend/src/components/FileUploader.js:54 | the form title when it is not empty, else the file name |
| Uploader.Serialize | frontend/src/components/FileUploader.js:56 | the checkbox is sent as text that is "true" iff it was ticked |
| Uploader.FailureMessage | frontend/src/components/FileUploader.js:71 | the server's message when there is one, else "Upload failed"; never empty |
| Uploader.FileUploader.constructor | frontend/src/components/FileUploader.js:5-10 | no file, empty title and description, private, not uploading, no error |
| Uploader.FileUploader.HandleFileChange | frontend/src/components/FileUploader.js:12-39 | no file: nothing changes; a refused file sets the error and clears the file; an accepted file clears the error and fills an empty title with the name without its extension |
| Uploader.FileUploader.HandleSubmit | frontend/src/components/FileUploader.js:41-75 | no file: an error and nothing sent; otherwise the form sends file, title or file name, description and checkbox; success resets the fields, failure keeps them and shows the message; uploading ends false |
| Uploader.ClientChecksMatchDefaultServer | frontend/src/components/FileUploader.js:16-29 | under the server's default configuration a file passes the form's checks iff multer stores it |
| Uploader.VisibilityRoundTrip | frontend/src/components/FileUploader.js:56 | the record the server builds from the form is public iff the box was ticked |
| Uploader.ServerTitleOfSubmission | frontend/src/components/FileUploader.js:54 | the server's record is titled with the trimmed form title, or the trimmed file name when the title was empty |
| Uploader.DefaultTitlesDiffer | frontend/src/components/FileUploader.js:34-37 | for "stem.ext" the form fills in "stem" while the server's default title is "stem.ext" |

## Left out

- Mongoose's `populate('uploadedBy', 'username')`, ObjectId casting and its CastError for a malformed id, and the `next(error)` handler's response are not modelled. A malformed id is a missing id here.
- Whether the requesting user exists is not checked. `User.findByIdAndUpdate` on an unknown user updates nothing; the model sets the pointer regardless.
- Select after delete: the pointer to a deleted tone is kept, as in the source. Nothing clears it, and the model does not state it separately.
- `path.join` normalisation: the disk path only drops the leading '/', so `..` segments are not resolved.
- JavaScript numbers: parseInt beyond 2^53 loses precision and a negative MAX_FILE_SIZE gives a negative limit. Both are left to unbounded integers, and `Math.round(Math.random() * 1E9)` is any natural number.
- The "…MB" figure of validateFile's message is a float division; the model keeps the byte limit it is computed from.
- Multer's internals are not modelled: streaming, its own error objects and multi-part handling. `Store` models one file part, the filter run before the size limit.
- The express-validator rule declarations and `validationResult` are not modelled; `Validate` starts from the error list.
- `validateFile` is not wired into the upload route. `ReceiveUpload` therefore does not call it; `Validation.ValidateFilePassesStoredFiles` shows it would be redundant there.
- `e.preventDefault`, `e.target.reset()`, the `alert` and the `onUploadSuccess` callback of the form are left out, as are the render and its disabled button. `HandleSubmit` sets `uploading` during the request, but the render that shows it is not modelled.
- The title and description `onChange` setters and the checkbox setter are plain assignments to the fields and have no method of their own.
- ToneController.RemoveId: its contract states membership only. That the remaining documents keep their order and multiplicity follows from the body but is not stated.
- ToneController.SortNewestFirst: documents with equal createdAt keep their collection order, a choice the database does not promise.
- Strings.StripClientExt: it is not stated that stripping twice can remove a second extension ("a.tar.gz" gives "a.tar", and then "a").
- Strings.ParseInt: the hexadecimal form ("0x1A") is modelled, but no lemma states its value; the lemmas cover decimal text only.
- Working directory: multer writes `uploads/` relative to the process's working directory, while the delete unlinks a path under the backend directory (`path.join(__dirname, '../../', fileUrl)`). The model keeps one set of backend-relative paths, so `ToneStore.DeleteCallTone`'s unlink and `LocalUploadDeletesItsOwnFile` describe the program only when the server is started from the backend directory.
- Storage failures: `Store` cannot fail once the filter and the limit pass. A failed S3 write, or a missing `uploads/` directory, makes multer call `next(err)` without the controller running and without any record. That path is not modelled.
