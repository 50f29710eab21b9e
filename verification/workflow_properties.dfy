/** Properties relating several requests: the cross-store mirror kept by successful uploads and
    deletes, and the upload/list/delete round trips. */
module WorkflowProperties {
  import opened Outcomes
  import opened FileSchema
  import opened UploadGate
  import opened MetadataStore
  import opened UploadController

  /** A successful upload keeps records, blobs and references mirrored, provided the blob store
      handed out a public id it was not already holding. */
  lemma UploadKeepsConsistent(s: State, caller: UserId, file: Option<Part>, env: UploadEnv)
    requires Consistent(s)
    requires env.put.Stored? ==> env.put.publicId !in s.blobs
    ensures UploadFile(s, caller, file, env).response.Ok? ==>
      Consistent(UploadFile(s, caller, file, env).state)
  {
    var r := UploadFile(s, caller, file, env);
    if r.response.Ok? {
      var e := r.response.value;
      assert r.state == AfterUpload(s, caller, e.id, e.file);
      AdditionKeepsConsistent(s, caller, e.id, e.file);
    }
  }

  /** The state a successful upload leaves: the blob stored, the document created, its
      reference appended to the owner's array. */
  function AfterUpload(s: State, caller: UserId, id: RecordId, doc: FileRecord): State
    requires caller in s.users
  {
    State(s.blobs + {doc.publicId}, s.records[id := doc],
          s.users[caller := s.users[caller] + [RefOf(doc)]])
  }

  /** Adding a document with a fresh `_id` and a fresh public id, owned by an existing user,
      together with its blob and its reference, leaves a mirrored state. */
  lemma AdditionKeepsConsistent(s: State, caller: UserId, id: RecordId, doc: FileRecord)
    requires Consistent(s)
    requires caller in s.users && doc.user == caller
    requires id !in s.records && doc.publicId !in s.blobs
    ensures Consistent(AfterUpload(s, caller, id, doc))
  {
    var t := AfterUpload(s, caller, id, doc);
    var ref := RefOf(doc);
    forall k1, k2 | k1 in t.records && k2 in t.records && k1 != k2
      ensures t.records[k1].publicId != t.records[k2].publicId
    {
      if k1 == id {
        assert s.records[k2].publicId in s.blobs;
      } else if k2 == id {
        assert s.records[k1].publicId in s.blobs;
      }
    }
    forall k | k in t.records
      ensures t.records[k].user in t.users && RefOf(t.records[k]) in t.users[t.records[k].user]
    {
      if k != id {
        var u := s.records[k].user;
        assert t.records[k] == s.records[k];
        assert RefOf(s.records[k]) in s.users[u];
        if u == caller {
          assert t.users[u] == s.users[u] + [ref];
        }
      } else {
        assert t.users[caller] == s.users[caller] + [ref];
        assert ref == t.users[caller][|s.users[caller]|];
      }
    }
    forall u, x | u in t.users && x in t.users[u]
      ensures exists k :: k in t.records && t.records[k].user == u && RefOf(t.records[k]) == x
    {
      if u == caller && x == ref {
        assert t.records[id] == doc;
      } else {
        assert x in s.users[u];
        var k :| k in s.records && s.records[k].user == u && RefOf(s.records[k]) == x;
        assert k != id && t.records[k] == s.records[k];
      }
    }
  }

  /** A successful delete keeps records, blobs and references mirrored: the pulled public id
      belonged to the deleted record only. */
  lemma DeleteKeepsConsistent(s: State, caller: UserId, id: RecordId, env: DeleteEnv)
    requires Consistent(s)
    ensures DeleteFile(s, caller, id, env).response.Ok? ==>
      Consistent(DeleteFile(s, caller, id, env).state)
  {
    var r := DeleteFile(s, caller, id, env);
    if r.response.Ok? {
      assert r.state == AfterRemoval(s, caller, id);
      RemovalKeepsConsistent(s, caller, id);
    }
  }

  /** The state a successful delete leaves: the blob destroyed, the record removed, its
      public id pulled from the owner. */
  function AfterRemoval(s: State, caller: UserId, id: RecordId): State
    requires id in s.records
  {
    var p := s.records[id].publicId;
    State(s.blobs - {p}, s.records - {id}, PullFromUser(s.users, caller, p))
  }

  /** The state a successful delete leaves is mirrored again. */
  lemma RemovalKeepsConsistent(s: State, caller: UserId, id: RecordId)
    requires Consistent(s)
    requires id in s.records && s.records[id].user == caller
    ensures Consistent(AfterRemoval(s, caller, id))
  {
    RemovalKeepsBlobs(s, caller, id);
    RemovalKeepsReferences(s, caller, id);
    RemovalKeepsNoStrayReference(s, caller, id);
  }

  /** Every remaining record still has its blob. */
  lemma RemovalKeepsBlobs(s: State, caller: UserId, id: RecordId)
    requires Consistent(s)
    requires id in s.records && s.records[id].user == caller
    ensures var t := AfterRemoval(s, caller, id);
      forall k :: k in t.records ==> t.records[k].publicId in t.blobs
  {
    var t := AfterRemoval(s, caller, id);
    forall k | k in t.records
      ensures t.records[k].publicId in t.blobs
    {
      assert k != id && t.records[k] == s.records[k];
      assert s.records[k].publicId != s.records[id].publicId;
    }
  }

  /** Every remaining record still has its reference in its owner's array. */
  lemma RemovalKeepsReferences(s: State, caller: UserId, id: RecordId)
    requires Consistent(s)
    requires id in s.records && s.records[id].user == caller
    ensures var t := AfterRemoval(s, caller, id);
      forall k :: k in t.records ==>
        t.records[k].user in t.users && RefOf(t.records[k]) in t.users[t.records[k].user]
  {
    var t := AfterRemoval(s, caller, id);
    var p := s.records[id].publicId;
    forall k | k in t.records
      ensures t.records[k].user in t.users && RefOf(t.records[k]) in t.users[t.records[k].user]
    {
      assert k != id && t.records[k] == s.records[k];
      var u := s.records[k].user;
      assert s.records[k].publicId != p;
      assert RefOf(s.records[k]) in s.users[u];
      assert RefOf(s.records[k]).publicId != p;
    }
  }

  /** Every remaining reference still belongs to a remaining record of its user. */
  lemma RemovalKeepsNoStrayReference(s: State, caller: UserId, id: RecordId)
    requires Consistent(s)
    requires id in s.records && s.records[id].user == caller
    ensures var t := AfterRemoval(s, caller, id);
      forall u, x :: u in t.users && x in t.users[u] ==>
        exists k :: k in t.records && t.records[k].user == u && RefOf(t.records[k]) == x
  {
    var t := AfterRemoval(s, caller, id);
    var p := s.records[id].publicId;
    forall u, x | u in t.users && x in t.users[u]
      ensures exists k :: k in t.records && t.records[k].user == u && RefOf(t.records[k]) == x
    {
      assert x in s.users[u];
      var k :| k in s.records && s.records[k].user == u && RefOf(s.records[k]) == x;
      if u == caller {
        assert x.publicId != p;
      }
      assert k != id;
      assert k in t.records && t.records[k] == s.records[k];
    }
  }

  /** After a successful upload, any answer of the listing holds the new document exactly once. */
  lemma UploadThenListedOnce(s: State, caller: UserId, file: Option<Part>, env: UploadEnv,
                             files: seq<Entry>)
    requires UploadFile(s, caller, file, env).response.Ok?
    requires IsListing(UploadFile(s, caller, file, env).state, caller, files)
    ensures var e := UploadFile(s, caller, file, env).response.value;
      exists i :: 0 <= i < |files| && files[i] == e
        && forall j :: 0 <= j < |files| && files[j].id == e.id ==> j == i
  {
    var r := UploadFile(s, caller, file, env);
    var e := r.response.value;
    assert e.id in r.state.records && r.state.records[e.id] == e.file;
    assert e in files;
  }

  /** Upload, then delete the new document: the listing no longer holds it. */
  lemma UploadDeleteThenNotListed(s: State, caller: UserId, file: Option<Part>, env: UploadEnv,
                                  denv: DeleteEnv, files: seq<Entry>)
    requires UploadFile(s, caller, file, env).response.Ok?
    requires
      var up := UploadFile(s, caller, file, env);
      DeleteFile(up.state, caller, up.response.value.id, denv).response.Ok?
    requires
      var up := UploadFile(s, caller, file, env);
      IsListing(DeleteFile(up.state, caller, up.response.value.id, denv).state, caller, files)
    ensures forall x :: x in files ==> x.id != UploadFile(s, caller, file, env).response.value.id
  {
  }

  /** A second delete of the same id answers NotFound and changes nothing. */
  lemma SecondDeleteNotFound(s: State, caller: UserId, id: RecordId, first: DeleteEnv,
                             second: DeleteEnv)
    requires DeleteFile(s, caller, id, first).response.Ok?
    ensures var t := DeleteFile(s, caller, id, first).state;
      DeleteFile(t, caller, id, second) == Step(t, Err(NotFound))
  {
  }

  /** A delete by a user who does not own the record changes no store, so the owner's record
      and reference stay as they were. */
  lemma OwnershipIsolation(s: State, owner: UserId, other: UserId, id: RecordId, env: DeleteEnv)
    requires id in s.records && s.records[id].user == owner && owner != other
    ensures DeleteFile(s, other, id, env) == Step(s, Err(NotFound))
  {
  }

  /** A file the middleware refuses causes no blob-store or metadata-store change, even when
      the owner is unknown: the middleware runs before the owner lookup. */
  lemma RejectedPartChangesNothing(s: State, caller: UserId, p: Part, env: UploadEnv)
    requires p.originalname != "" && Gate(p).Err?
    ensures HandleUpload(s, caller, Some(p), env).state == s
    ensures HandleUpload(s, caller, Some(p), env).response.Err?
    ensures HandleUpload(s, caller, Some(p), env).response.error != NotFound
  {
  }
}
