/** controllers/uploadController.js: uploadFile, getUserFiles and deleteFile as transitions of
    the three-store state. Every external answer (what the blob store returned, the `_id` the
    metadata store assigned, the clock, whether a write threw) is a parameter. */
module UploadController {
  import opened Outcomes
  import opened FileSchema
  import opened UploadGate
  import opened MetadataStore

  /** What `cloudinary.uploader.upload` did: returned a `public_id` and `secure_url`, or threw. */
  datatype BlobPut = Stored(publicId: string, secureUrl: string) | PutFailed

  /** The environment of one upload: the blob store's answer, the new document's `_id`, the
      clock reading `Date.now`, and whether `File.create` or `user.save` threw. */
  datatype UploadEnv = UploadEnv(
    put: BlobPut,
    newId: RecordId,
    now: nat,
    createFails: bool,
    saveFails: bool)

  /** The environment of one delete: whether `destroy`, `file.remove` or the `$pull` threw. */
  datatype DeleteEnv = DeleteEnv(destroyFails: bool, removeFails: bool, pullFails: bool)

  /** uploadFile. Owner lookup, then file presence, then the blob put, File.create, and the
      push onto the owner's `files` followed by `user.save`. A throw at any step is caught and
      reported; what earlier steps wrote stays written. */
  function UploadFile(s: State, caller: UserId, file: Option<Part>, env: UploadEnv)
    : (r: Step<Entry>)
    // the owner check comes first, whatever the file
    ensures caller !in s.users ==> r == Step(s, Err(NotFound))
    ensures caller in s.users && file.None? ==> r == Step(s, Err(InvalidInput))
    ensures caller in s.users && file.Some? && env.put.PutFailed? ==> r == Step(s, Err(RemoteFailure))
    // success: exactly what the blob store returned, the caller, the original name, the clock
    ensures r.response.Ok? <==>
      && caller in s.users && file.Some? && env.put.Stored?
      && Present(caller) && Present(env.put.publicId) && Present(env.put.secureUrl)
      && Present(file.value.originalname)
      && !env.createFails && env.newId !in s.records && !env.saveFails
    ensures r.response.Ok? ==>
      var e := r.response.value;
      && e.id == env.newId
      && e.file == FileRecord(caller, env.put.publicId, env.put.secureUrl,
                              file.value.originalname, env.now)
      && r.state.blobs == s.blobs + {env.put.publicId}
      && r.state.records == s.records[env.newId := e.file]
      && r.state.users == s.users[caller := s.users[caller] + [RefOf(e.file)]]
    // failure after the put: the blob stays (orphaned), no reference is added
    ensures r.response.Err? ==> r.state.users == s.users
    ensures r.response.Err? && env.put.Stored? && caller in s.users && file.Some? ==>
      r.state.blobs == s.blobs + {env.put.publicId}
    ensures r.response.Err? ==> r.state.records == s.records || r.response.error == PersistenceFailure
    // each failure after the put, and exactly what it leaves behind
    ensures caller in s.users && file.Some? && env.put.Stored? ==>
      var orphan := s.(blobs := s.blobs + {env.put.publicId});
      var doc := FileRecord(caller, env.put.publicId, env.put.secureUrl,
                            file.value.originalname, env.now);
      && (!Conforms(doc) ==> r == Step(orphan, Err(SchemaViolation)))
      && (Conforms(doc) && (env.createFails || env.newId in s.records) ==>
            r == Step(orphan, Err(PersistenceFailure)))
      // a failed save leaves the created document with no reference to it
      && (Conforms(doc) && !env.createFails && env.newId !in s.records && env.saveFails ==>
            r == Step(orphan.(records := s.records[env.newId := doc]), Err(PersistenceFailure)))
    // every record written passes the schema
    ensures AllConform(s) ==> AllConform(r.state)
  {
    if caller !in s.users then Step(s, Err(NotFound))
    else if file.None? then Step(s, Err(InvalidInput))
    else match env.put
      case PutFailed => Step(s, Err(RemoteFailure))
      case Stored(publicId, secureUrl) =>
        var s1 := s.(blobs := s.blobs + {publicId});
        var created := Create(caller, publicId, secureUrl, file.value.originalname, None, env.now);
        if created.Err? then Step(s1, Err(created.error))
        else if env.createFails || env.newId in s.records then Step(s1, Err(PersistenceFailure))
        else
          var doc := created.value;
          var s2 := s1.(records := s1.records[env.newId := doc]);
          if env.saveFails then Step(s2, Err(PersistenceFailure))
          else
            var s3 := s2.(users := s2.users[caller := s2.users[caller] + [RefOf(doc)]]);
            Step(s3, Ok(Entry(env.newId, doc)))
  }

  /** deleteFile. The lookup filters by `_id` and owner together, then the blob is destroyed,
      the document removed and its references pulled from the caller's `files`. A throw at any
      step is caught; what earlier steps did stays done. */
  function DeleteFile(s: State, caller: UserId, id: RecordId, env: DeleteEnv): (r: Step<()>)
    // absent and not-owned are the same answer, with nothing touched
    ensures id !in s.records || s.records[id].user != caller ==> r == Step(s, Err(NotFound))
    ensures id in s.records && s.records[id].user == caller && env.destroyFails ==>
      r == Step(s, Err(RemoteFailure))
    ensures r.response.Ok? <==>
      id in s.records && s.records[id].user == caller
      && !env.destroyFails && !env.removeFails && !env.pullFails
    ensures r.response.Ok? ==>
      var publicId := s.records[id].publicId;
      && r.state.blobs == s.blobs - {publicId}
      && r.state.records == s.records - {id}
      && r.state.users.Keys == s.users.Keys
      && (forall u :: u in s.users && u != caller ==> r.state.users[u] == s.users[u])
      && (caller in s.users ==> r.state.users[caller] == Pull(s.users[caller], publicId))
    ensures r.response.Err? ==> r.state.users == s.users
    ensures r.state.records == s.records || r.state.records == s.records - {id}
    // each failure after the destroy, and exactly what it leaves behind
    ensures id in s.records && s.records[id].user == caller && !env.destroyFails ==>
      && r.state.blobs == s.blobs - {s.records[id].publicId}
      // a failed remove leaves a record whose blob is gone
      && (env.removeFails ==> r.response == Err(PersistenceFailure) && r.state.records == s.records)
      && (!env.removeFails && env.pullFails ==>
            r.response == Err(PersistenceFailure) && r.state.records == s.records - {id})
    ensures AllConform(s) ==> AllConform(r.state)
  {
    if id !in s.records || s.records[id].user != caller then Step(s, Err(NotFound))
    else
      var publicId := s.records[id].publicId;
      if env.destroyFails then Step(s, Err(RemoteFailure))
      else
        var s1 := s.(blobs := s.blobs - {publicId});
        if env.removeFails then Step(s1, Err(PersistenceFailure))
        else
          var s2 := s1.(records := s1.records - {id});
          if env.pullFails then Step(s2, Err(PersistenceFailure))
          else Step(s2.(users := PullFromUser(s2.users, caller, publicId)), Ok(()))
  }

  /** Most recent first: `sort("-uploadedAt")`. */
  predicate NewestFirst(xs: seq<Entry>) {
    forall i, j :: 0 <= i < j < |xs| ==> xs[i].file.uploadedAt >= xs[j].file.uploadedAt
  }

  /** No document appears twice. */
  predicate DistinctIds(xs: seq<Entry>) {
    forall i, j :: 0 <= i < j < |xs| ==> xs[i].id != xs[j].id
  }

  /** What `File.find({ user }).sort("-uploadedAt")` may answer: the caller's documents, each
      once, and nothing else, newest first (the order of equal timestamps is not fixed). */
  ghost predicate IsListing(s: State, caller: UserId, files: seq<Entry>) {
    && (forall x :: x in files ==>
          x.id in s.records && s.records[x.id] == x.file && x.file.user == caller)
    && (forall k :: k in s.records && s.records[k].user == caller ==> Entry(k, s.records[k]) in files)
    && DistinctIds(files)
    && NewestFirst(files)
  }

  /** Place `e` before the first entry that is not newer than it. */
  function Insert(xs: seq<Entry>, e: Entry): (r: seq<Entry>)
    ensures |r| == |xs| + 1
    ensures forall x :: x in r <==> x in xs || x == e
    ensures multiset(r) == multiset(xs) + multiset{e}
  {
    if xs == [] || e.file.uploadedAt >= xs[0].file.uploadedAt then [e] + xs
    else
      assert xs == [xs[0]] + xs[1..];
      [xs[0]] + Insert(xs[1..], e)
  }

  /** Inserting into a newest-first list keeps it newest first. */
  lemma {:induction false} InsertKeepsNewestFirst(xs: seq<Entry>, e: Entry)
    requires NewestFirst(xs)
    ensures NewestFirst(Insert(xs, e))
  {
    if xs == [] || e.file.uploadedAt >= xs[0].file.uploadedAt {
    } else {
      InsertKeepsNewestFirst(xs[1..], e);
      var rest := Insert(xs[1..], e);
      assert forall i :: 1 <= i < |xs| ==> xs[0].file.uploadedAt >= xs[i].file.uploadedAt;
      forall x | x in rest
        ensures xs[0].file.uploadedAt >= x.file.uploadedAt
      {
        if x != e {
          assert x in xs[1..];
          var i :| 0 <= i < |xs[1..]| && xs[1..][i] == x;
          assert xs[i + 1] == x;
        }
      }
      var r := [xs[0]] + rest;
      assert Insert(xs, e) == r;
      forall i, j | 0 <= i < j < |r|
        ensures r[i].file.uploadedAt >= r[j].file.uploadedAt
      {
        if i == 0 {
          assert r[j] == rest[j - 1];
          assert rest[j - 1] in rest;
        } else {
          assert r[i] == rest[i - 1] && r[j] == rest[j - 1];
        }
      }
    }
  }

  /** Inserting an entry whose id is new keeps the ids distinct. */
  lemma {:induction false} InsertKeepsDistinctIds(xs: seq<Entry>, e: Entry)
    requires DistinctIds(xs)
    requires forall x :: x in xs ==> x.id != e.id
    ensures DistinctIds(Insert(xs, e))
  {
    if xs == [] || e.file.uploadedAt >= xs[0].file.uploadedAt {
      var r := [e] + xs;
      forall i, j | 0 <= i < j < |r|
        ensures r[i].id != r[j].id
      {
        assert r[j] == xs[j - 1];
        if i == 0 {
          assert xs[j - 1] in xs;
        } else {
          assert r[i] == xs[i - 1];
        }
      }
    } else {
      assert forall x :: x in xs[1..] ==> x in xs;
      InsertKeepsDistinctIds(xs[1..], e);
      var rest := Insert(xs[1..], e);
      forall x | x in rest
        ensures x.id != xs[0].id
      {
        if x == e {
          assert xs[0] in xs;
        } else {
          var i :| 0 <= i < |xs[1..]| && xs[1..][i] == x;
          assert xs[i + 1] == x;
        }
      }
      var r := [xs[0]] + rest;
      forall i, j | 0 <= i < j < |r|
        ensures r[i].id != r[j].id
      {
        if i == 0 {
          assert r[j] == rest[j - 1];
          assert rest[j - 1] in rest;
        } else {
          assert r[i] == rest[i - 1] && r[j] == rest[j - 1];
        }
      }
    }
  }

  /** getUserFiles: the caller's documents newest first, and their count. */
  method ListFiles(s: State, caller: UserId) returns (files: seq<Entry>, count: nat)
    ensures IsListing(s, caller, files)
    ensures count == |files|
    ensures (forall k :: k in s.records ==> s.records[k].user != caller) ==> files == []
  {
    var pending := s.records.Keys;
    files := [];
    while pending != {}
      invariant pending <= s.records.Keys
      invariant forall x :: x in files ==>
        x.id in s.records && x.id !in pending && s.records[x.id] == x.file && x.file.user == caller
      invariant forall k :: k in s.records && k !in pending && s.records[k].user == caller ==>
        Entry(k, s.records[k]) in files
      invariant DistinctIds(files)
      invariant NewestFirst(files)
      decreases pending
    {
      var k :| k in pending;
      pending := pending - {k};
      if s.records[k].user == caller {
        InsertKeepsNewestFirst(files, Entry(k, s.records[k]));
        InsertKeepsDistinctIds(files, Entry(k, s.records[k]));
        files := Insert(files, Entry(k, s.records[k]));
      }
    }
    if files != [] {
      assert files[0] in files;
    }
    count := |files|;
  }

  /** The route chain `upload.single("file")` then `uploadFile`. The multipart decoder drops a
      part with an empty file name, so the controller sees no file. A part the middleware
      refuses never reaches the controller; an accepted part reaches it unchanged. */
  function HandleUpload(s: State, caller: UserId, part: Option<Part>, env: UploadEnv)
    : (r: Step<Entry>)
    ensures part.None? || part.value.originalname == "" ==> r == UploadFile(s, caller, None, env)
    ensures part.Some? && part.value.originalname != "" && !FileFilter(part.value) ==>
      r == Step(s, Err(UnsupportedMediaType))
    ensures part.Some? && part.value.originalname != "" && FileFilter(part.value)
            && part.value.size > MaxFileSize ==>
      r == Step(s, Err(PayloadTooLarge))
    ensures part.Some? && part.value.originalname != "" && Gate(part.value).Ok? ==>
      r == UploadFile(s, caller, part, env)
    ensures r.response.Ok? ==>
      part.Some? && part.value.mimetype in AllowedTypes && part.value.size <= MaxFileSize
    ensures r.response.Ok? ==> r.response.value.file.filename == part.value.originalname
  {
    match part
    case None => UploadFile(s, caller, None, env)
    case Some(p) =>
      if p.originalname == "" then UploadFile(s, caller, None, env)
      else
        match Gate(p)
        case Err(e) => Step(s, Err(e))
        case Ok(accepted) => UploadFile(s, caller, Some(accepted), env)
  }
}
