/** Error taxonomy and result wrappers shared by the upload, list and delete workflows. */
module Outcomes {

  /** The failures a request can end in. */
  datatype Error =
    | NotFound              // owner unknown, or no record with that id owned by the caller (404)
    | InvalidInput          // no file in the request (400)
    | UnsupportedMediaType  // the file filter refused the mimetype
    | PayloadTooLarge       // the multipart size limit was exceeded
    | RemoteFailure         // the blob store call threw
    | SchemaViolation       // File.create refused a record missing a required field
    | PersistenceFailure    // a metadata-store write threw

  /** Conventional Some/None. */
  datatype Option<+T> = None | Some(value: T)

  /** What a controller answers: the response data or an error. */
  datatype Result<+T> = Ok(value: T) | Err(error: Error)
}
