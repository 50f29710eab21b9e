/** The multipart middleware in front of uploadFile: a mimetype allow-list and a size ceiling. */
module UploadGate {
  import opened Outcomes

  /** The nine mimetypes the file filter accepts, compared exactly. The two long Office types
      are written as `application/` followed by their subtype, which spells the same string. */
  const AllowedTypes: seq<string> := [
    "image/jpeg",
    "image/png",
    "image/gif",
    "application/pdf",
    "application/msword",
    "application/" + "vnd.openxmlformats-officedocument.wordprocessingml.document",
    "application/vnd.ms-excel",
    "application/" + "vnd.openxmlformats-officedocument.spreadsheetml.sheet",
    "text/plain"
  ]

  /** The size ceiling in bytes: 10 MiB. */
  const MaxFileSize: nat := 1024 * 1024 * 10

  /** A decoded multipart file part, as the middleware hands it to the controller. */
  datatype Part = Part(mimetype: string, originalname: string, size: nat)

  /** The file filter's decision: only images, PDFs and document types get through. */
  predicate FileFilter(file: Part): (ok: bool)
    ensures ok ==> "image/" <= file.mimetype || "application/" <= file.mimetype
                   || file.mimetype == "text/plain"
  {
    assert forall i :: 0 <= i < 3 ==> "image/" <= AllowedTypes[i];
    assert forall i :: 3 <= i < 8 ==> "application/" <= AllowedTypes[i];
    file.mimetype in AllowedTypes
  }

  /** The middleware: the filter runs on the part's headers first, the size limit while the
      body streams; a part that passes both is handed on unchanged. */
  function Gate(file: Part): (r: Result<Part>)
    ensures r.Ok? <==> FileFilter(file) && file.size <= MaxFileSize
    ensures r.Ok? ==> r.value == file
    ensures !FileFilter(file) ==> r == Err(UnsupportedMediaType)
    ensures FileFilter(file) && file.size > MaxFileSize ==> r == Err(PayloadTooLarge)
  {
    if !FileFilter(file) then Err(UnsupportedMediaType)
    else if file.size > MaxFileSize then Err(PayloadTooLarge)
    else Ok(file)
  }

  /** The allow-list spelled out: exactly these nine strings pass. */
  lemma FilterAcceptsExactly(file: Part)
    ensures FileFilter(file) <==>
      || file.mimetype == "image/jpeg"
      || file.mimetype == "image/png"
      || file.mimetype == "image/gif"
      || file.mimetype == "application/pdf"
      || file.mimetype == "application/msword"
      || file.mimetype == "application/" + "vnd.openxmlformats-officedocument.wordprocessingml.document"
      || file.mimetype == "application/vnd.ms-excel"
      || file.mimetype == "application/" + "vnd.openxmlformats-officedocument.spreadsheetml.sheet"
      || file.mimetype == "text/plain"
  {
  }

  /** Matching is exact, not by prefix: an `image/` type outside the list is refused,
      and so is an archive. The mimetype is the one the multipart decoder reports. */
  lemma FilterIsNotPrefixMatch(name: string, size: nat)
    ensures Gate(Part("image/webp", name, size)) == Err(UnsupportedMediaType)
    ensures Gate(Part("application/zip", name, size)) == Err(UnsupportedMediaType)
  {
  }

  /** The decision reads only the mimetype: name and size do not enter the filter. */
  lemma FilterReadsOnlyMimetype(a: Part, b: Part)
    requires a.mimetype == b.mimetype
    ensures FileFilter(a) == FileFilter(b)
  {
  }

  /** The ceiling is 10485760 bytes inclusive: that size passes, one byte more is refused. */
  lemma SizeCeiling(mimetype: string, name: string)
    requires mimetype in AllowedTypes
    ensures MaxFileSize == 10485760
    ensures Gate(Part(mimetype, name, 10485759)).Ok?
    ensures Gate(Part(mimetype, name, 10485760)).Ok?
    ensures Gate(Part(mimetype, name, 10485761)) == Err(PayloadTooLarge)
  {
  }
}
