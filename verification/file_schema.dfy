/** The File document of models/File.js and the per-user reference that mirrors it. */
module FileSchema {
  import opened Outcomes

  type UserId = string
  type RecordId = string

  /** A File document. Its `_id` is the key it is stored under, not a field. */
  datatype FileRecord = FileRecord(
    user: UserId,
    publicId: string,
    url: string,
    filename: string,
    uploadedAt: nat)

  /** One entry of a user's `files` array: a copy of three fields of a File document. */
  datatype FileRef = FileRef(publicId: string, url: string, filename: string)

  /** The reference that mirrors a record. */
  function RefOf(f: FileRecord): FileRef {
    FileRef(f.publicId, f.url, f.filename)
  }

  /** Mongoose's `required` check on a string path: absent and empty both fail. */
  predicate Present(v: string) {
    |v| > 0
  }

  /** The values of the schema's `required: true` paths, in schema order. `uploadedAt` has a
      default instead and is not among them. */
  function RequiredPaths(f: FileRecord): seq<string> {
    [f.user, f.publicId, f.url, f.filename]
  }

  /** A document satisfying every `required: true` path of the schema. */
  predicate Conforms(f: FileRecord): (ok: bool)
    ensures ok <==> Present(f.user) && Present(f.publicId) && Present(f.url) && Present(f.filename)
  {
    var paths := RequiredPaths(f);
    assert paths[0] == f.user && paths[1] == f.publicId && paths[2] == f.url && paths[3] == f.filename;
    forall i :: 0 <= i < |paths| ==> Present(paths[i])
  }

  /** File.create: validates the required paths and fills `uploadedAt` with the creation
      time `now` when the caller does not supply one. */
  function Create(user: UserId, publicId: string, url: string, filename: string,
                  uploadedAt: Option<nat>, now: nat): (r: Result<FileRecord>)
    ensures r.Ok? <==> user != "" && publicId != "" && url != "" && filename != ""
    ensures r.Err? ==> r.error == SchemaViolation
    ensures r.Ok? ==> Conforms(r.value)
    ensures r.Ok? ==> r.value.user == user && r.value.publicId == publicId
                      && r.value.url == url && r.value.filename == filename
    ensures r.Ok? && uploadedAt.None? ==> r.value.uploadedAt == now
    ensures r.Ok? && uploadedAt.Some? ==> r.value.uploadedAt == uploadedAt.value
  {
    var doc := FileRecord(user, publicId, url, filename,
                          match uploadedAt case Some(t) => t case None => now);
    if Conforms(doc) then Ok(doc) else Err(SchemaViolation)
  }
}
