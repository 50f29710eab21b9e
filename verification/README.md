# File upload, listing and deletion — a Dafny model

This project models the file-metadata workflow of a small Express/Mongoose/Cloudinary
backend. An authenticated user uploads a file, lists their files, or deletes one. Each
operation coordinates three stores:

- the remote blob store (Cloudinary), modelled as the set of live `public_id`s;
- the `File` collection, modelled as a map from `_id` to a `FileRecord`
  (`user`, `public_id`, `url`, `filename`, `uploadedAt`);
- each user's `files` array of `(public_id, url, filename)` references, modelled as a map from
  user id to a sequence. A user exists iff it is a key of this map.

`uploadFile` and `deleteFile` become pure transitions (`UploadController.UploadFile`,
`DeleteFile`). Each returns the next state together with the response, because a step that throws
does not undo the steps before it. `getUserFiles` only reads: `ListFiles` is a method that takes
the state and returns the caller's documents newest first with their `count`; among documents
with equal `uploadedAt` it picks some order. The multer
middleware in front of `uploadFile` becomes a pure gate (`UploadGate.Gate`): a nine-entry
mimetype allow-list and a 10 MiB size ceiling. `HandleUpload` chains the gate and the controller
as the route does.

The environment is passed in as parameters:

- `UploadEnv`: what the blob store returned (`public_id`, `secure_url`, or a throw), the `_id`
  the metadata store assigns, `Date.now` as a natural, and whether `File.create` or `user.save`
  threw;
- `DeleteEnv`: whether `destroy`, `file.remove` or the `$pull` update threw.

Modules: `Outcomes` (error enum, `Option`, `Result`), `FileSchema` (models/File.js),
`UploadGate` (middleware/upload.js), `MetadataStore` (state, `$pull`, the cross-store
invariant), `UploadController` (controllers/uploadController.js and the route chain),
`WorkflowProperties` (lemmas relating several requests).

Three behaviours of the code are easy to misread; the model keeps each as written:

- **Delete when the blob destroy throws.** `await cloudinary.uploader.destroy` throwing jumps to
  the `catch` before `file.remove()`, so the record and the reference both stay. `DeleteFile`
  answers `RemoteFailure` with the state unchanged.
- **Validation order on upload.** `upload.single("file")` runs before `uploadFile`. So a part
  the middleware refuses is answered `UnsupportedMediaType` or `PayloadTooLarge` even when the
  owner is unknown, before any owner lookup. `HandleUpload` models this order. Inside
  `uploadFile` the owner check still comes before the file-presence check.
- **Empty names and required fields.** multer's file handler drops a file part whose name is
  empty, so `uploadFile` sees no file. It answers `InvalidInput` for an existing owner and
  `NotFound` for an unknown one. `HandleUpload` treats such a part as no file. Mongoose's `required` on a string rejects the empty string, and `File.create`
  runs after the blob was stored. So if the blob store answers with an empty `public_id` or
  `secure_url`, the request ends in `SchemaViolation` and leaves an orphaned blob.

## Model

| member | source | states |
|---|---|---|
| FileSchema.Conforms | models/File.js:3-25 | Checking the schema's required paths in order is the same as requiring `user`, `public_id`, `url` and `filename` to be non-empty. `uploadedAt` is not required |
| FileSchema.Create | models/File.js:3-25 | The document is created iff `user`, `public_id`, `url` and `filename` are all present (non-empty); otherwise it is refused with a schema violation. A created document carries exactly the given fields, and `uploadedAt` is the creation time whenever the caller does not supply one |
| UploadGate.FileFilter | middleware/upload.js:4-28 | Every mimetype the filter lets through is an `image/` type, an `application/` type or `text/plain`, as its comment promises (images, PDFs, documents) |
| UploadGate.Gate | middleware/upload.js:4-34 | A part passes iff its mimetype is on the allow-list and its size is at most the ceiling (the boundary is discussed under "## Left out"); a part that passes is handed on unchanged. A refused mimetype is answered `UnsupportedMediaType` before size is looked at; an allowed but oversized part is answered `PayloadTooLarge` |
| UploadGate.FilterAcceptsExactly | middleware/upload.js:6-19 | The filter accepts a mimetype iff it equals one of the nine listed strings |
| UploadGate.FilterIsNotPrefixMatch | middleware/upload.js:18-27 | For the mimetype the decoder reports, `image/webp` and `application/zip` are refused: matching is exact, not by prefix |
| UploadGate.FilterReadsOnlyMimetype | middleware/upload.js:4-18 | Two parts with the same mimetype get the same filter decision, whatever their names or sizes |
| UploadGate.SizeCeiling | middleware/upload.js:30-34 | The ceiling is 1024*1024*10 = 10485760 bytes. An allowed file of 10485759 bytes passes and one of 10485761 is refused with `PayloadTooLarge`. A file of exactly 10485760 bytes is taken to pass (see "## Left out") |
| MetadataStore.Pull | controllers/uploadController.js:102-104 | `$pull` by `public_id` drops exactly the entries with that id. Every other entry keeps its multiplicity. A list without that id is returned unchanged |
| MetadataStore.PullFromUser | controllers/uploadController.js:102-104 | The update replaces the given user's array by its pull, keeping the count and order of the surviving entries. It touches no other user's array, never adds or removes users, and is a no-op when that user does not exist |
| MetadataStore.PullKeepsOrder | controllers/uploadController.js:102-104 | Pulling distributes over concatenation, so the surviving entries keep their relative order |
| UploadController.UploadFile | controllers/uploadController.js:9-51 | Unknown owner gives `NotFound` with nothing changed, even when the file is also missing. A missing file gives `InvalidInput` with nothing changed. A failed put gives `RemoteFailure` with nothing changed. Success happens iff every step succeeds. On success the record holds the caller, exactly the returned `public_id`/`secure_url`, the original name and the clock reading. Exactly one reference is appended to the end of the caller's array, other users are untouched, and the blob set gains just that id. Each failure after the put is pinned down. A refused document answers `SchemaViolation` and a failed or duplicate `File.create` answers `PersistenceFailure`; both keep only the orphaned blob. A failed `user.save` answers `PersistenceFailure` and keeps the blob and the new document, with no reference to it. Every record still conforms to the schema |
| UploadController.DeleteFile | controllers/uploadController.js:82-113 | An id that is absent or owned by someone else gives `NotFound` with nothing changed. A throwing destroy gives `RemoteFailure` with nothing changed. Success happens iff the owned record exists and no step throws. It then removes exactly that blob and that record, pulls that `public_id` from the caller's array only, and leaves every other user's array as it was. Once the destroy succeeded, the blob is gone whatever follows. A failed `file.remove()` answers `PersistenceFailure` and keeps the record, now without its blob. A failed `$pull` answers `PersistenceFailure` with the record removed and the reference kept. Failures never touch references, and records stay schema-conforming |
| UploadController.Insert | controllers/uploadController.js:67 | Inserting one document into a listing adds exactly that document, once, and keeps every other entry with its multiplicity |
| UploadController.InsertKeepsNewestFirst | controllers/uploadController.js:67 | Inserting into a list ordered by `uploadedAt` descending keeps it ordered |
| UploadController.InsertKeepsDistinctIds | controllers/uploadController.js:67 | Inserting a document with a new `_id` keeps every `_id` in the list distinct |
| UploadController.ListFiles | controllers/uploadController.js:56-77 | The answer holds exactly the caller's documents, each once, and no other user's. It is ordered by `uploadedAt` non-increasing and is empty when the caller has none. `count` equals its length |
| UploadController.HandleUpload | routes/uploadRoutes.js:14 | The middleware runs before the controller. A part with an empty name counts as no file. A refused mimetype or oversized part is answered before the owner lookup, with no store touched. An accepted part is handed to `uploadFile` unchanged, and a request with no file part goes straight to it. A successful upload had an allowed mimetype within the ceiling |
| WorkflowProperties.UploadKeepsConsistent | controllers/uploadController.js:23-42 | After a successful upload, every record still has its blob, no two records share a blob id, and each user's array holds exactly the references of that user's records. This assumes the store handed out a fresh `public_id` |
| WorkflowProperties.AdditionKeepsConsistent | controllers/uploadController.js:23-42 | Storing a fresh blob, creating a document with a fresh `_id` for an existing owner, and appending its reference to that owner's array leaves a mirrored state |
| WorkflowProperties.DeleteKeepsConsistent | controllers/uploadController.js:84-104 | A successful delete keeps the records, blobs and reference arrays mirrored |
| WorkflowProperties.RemovalKeepsConsistent | controllers/uploadController.js:96-104 | Destroying an owned record's blob, removing the record and pulling its `public_id` from the owner leaves a mirrored state |
| WorkflowProperties.RemovalKeepsBlobs | controllers/uploadController.js:96-99 | After that removal every remaining record still has its blob: no other record shared the destroyed `public_id` |
| WorkflowProperties.RemovalKeepsReferences | controllers/uploadController.js:99-104 | After that removal every remaining record still has its reference in its owner's array: the pull removes only the destroyed `public_id` |
| WorkflowProperties.RemovalKeepsNoStrayReference | controllers/uploadController.js:99-104 | After that removal every remaining reference still belongs to a remaining record of the same user |
| WorkflowProperties.UploadThenListedOnce | controllers/uploadController.js:28-73 | Any listing after a successful upload contains the new document exactly once |
| WorkflowProperties.UploadDeleteThenNotListed | controllers/uploadController.js:28-104 | Upload, then a successful delete of the new id: no listing contains that id |
| WorkflowProperties.SecondDeleteNotFound | controllers/uploadController.js:84-99 | Deleting the same id again after a successful delete answers `NotFound` and changes nothing |
| WorkflowProperties.OwnershipIsolation | controllers/uploadController.js:84-93 | A user who does not own a record cannot delete it: the answer is `NotFound`, and the owner's record and reference are unchanged |
| WorkflowProperties.RejectedPartChangesNothing | routes/uploadRoutes.js:14 | A named part the middleware refuses changes no store and is never answered `NotFound`, even for an unknown owner |

## Left out

- Server bootstrap, CORS, body parsing, the HTTP status codes and JSON envelopes (index.js). The response is a `Result` over a small error enum.
- The `protect` middleware and the `config/*` modules are not part of this model. The caller's user id is a parameter, and the controller's blob put is a parameter.
- The multer storage engine from `config/cloudinary` is not modelled; the model treats it as writing the part to a file that `uploadFile` then reads from `req.file.path`. If that engine is a Cloudinary storage engine, it stores a blob of its own for every accepted part before the owner lookup. That blob is never recorded or destroyed, and the controller uploads the file a second time. So the model's blob set then misses one orphaned blob per accepted part, including parts later refused with `NotFound`.
- Read failures of the metadata store (`User.findById`, `File.find`, `File.findOne` throwing) are not modelled. Write failures are: `File.create`, `user.save`, `file.remove` and the `$pull` update.
- DeleteFile: answers `NotFound` for every id that is not a key of the record map. In the program, a `:id` that is not a well-formed ObjectId makes `File.findOne` throw a cast error, and the catch answers that error instead of 404. Record ids are opaque strings here, so malformed ids are not distinguished.
- UploadGate.SizeCeiling: the inclusive boundary (a part of exactly 10485760 bytes passes) follows busboy 0.x, which truncates only when the size exceeds the limit, and multer's documented "max file size". busboy 1.x (used by multer 1.4.5-lts and 2.x) emits its limit event once the size reaches the limit, so it refuses exactly 10485760 bytes. Which version runs is not fixed by the code. Only 10485759 passing and 10485761 being refused hold for both.
- UploadGate.Gate: takes `size <= MaxFileSize` as passing, with the same version caveat at exactly 10485760 bytes.
- Cloudinary's `resource_type: "auto"` detection and its per-type namespaces are not modelled. The blob store is one flat set of `public_id`s. This changes what a delete does to the blob. `destroy(public_id)` without a `resource_type` looks only in the image namespace. A Word, Excel or plain-text file stored as `raw` therefore keeps its blob in the program, while `DeleteFile` removes it from the set.
- UploadGate.FileFilter: the mimetype is the one the multipart decoder reports. The decoder drops parameters and lower-cases the type, so a header such as `image/jpeg; charset=binary` reaches the filter as `image/jpeg`. That decoding is not modelled.
- ObjectId generation is not modelled. The new `_id` is a parameter, and a clash with an existing one is answered `PersistenceFailure`, like a duplicate-key error.
- Concurrency between requests is not modelled: duplicate concurrent deletes, and lost updates on `user.save()` from a document loaded earlier in the request. Each request is one atomic transition over the state it starts from.
- Multipart decoding, temp-file paths, and the multer `single("file")` field-name check are not modelled.
- Timestamps are naturals. `Date` precision and the tie order among equal `uploadedAt` values are left open: `ListFiles` may answer any newest-first order.
- WorkflowProperties.UploadKeepsConsistent: proves the mirror only across successful uploads, and only when the blob store returns a `public_id` it did not already hold. Failed uploads and deletes do break the mirror (orphaned blob, record without reference, record whose blob is gone), as the code does; the model records those states but proves no invariant over them.
