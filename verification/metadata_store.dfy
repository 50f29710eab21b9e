/** The three stores the controller coordinates, and the array operations it applies to a
    user's `files` list. */
module MetadataStore {
  import opened Outcomes
  import opened FileSchema

  /** `blobs`: public ids live in the blob store. `records`: File documents by `_id`.
      `users`: each existing user's `files` array; a user exists iff it is a key here. */
  datatype State = State(
    blobs: set<string>,
    records: map<RecordId, FileRecord>,
    users: map<UserId, seq<FileRef>>)

  /** The state after a request, and what the request answered. A failing request may still
      have changed the state: the steps before the one that threw are not undone. */
  datatype Step<+T> = Step(state: State, response: Result<T>)

  /** A File document together with its `_id`, as the controller returns it. */
  datatype Entry = Entry(id: RecordId, file: FileRecord)

  /** `$pull: { files: { public_id } }`: drop every entry with that public id, keep the others
      in order and with their multiplicities. */
  function Pull(refs: seq<FileRef>, publicId: string): (r: seq<FileRef>)
    ensures forall x :: x in r <==> x in refs && x.publicId != publicId
    ensures forall x: FileRef :: x.publicId != publicId ==> multiset(r)[x] == multiset(refs)[x]
    ensures (forall i :: 0 <= i < |refs| ==> refs[i].publicId != publicId) ==> r == refs
  {
    if refs == [] then []
    else
      assert refs == [refs[0]] + refs[1..];
      var rest := Pull(refs[1..], publicId);
      if refs[0].publicId == publicId then rest else [refs[0]] + rest
  }

  /** `$pull` lifted to the user collection: findByIdAndUpdate on an id with no user document
      matches nothing and changes nothing. */
  function PullFromUser(users: map<UserId, seq<FileRef>>, user: UserId, publicId: string)
    : (r: map<UserId, seq<FileRef>>)
    ensures r.Keys == users.Keys
    ensures forall u :: u in users && u != user ==> r[u] == users[u]
    ensures user in users ==> forall x :: x in r[user] <==> x in users[user] && x.publicId != publicId
    ensures user in users ==> r[user] == Pull(users[user], publicId)
  {
    if user in users then users[user := Pull(users[user], publicId)] else users
  }

  /** Pulling distributes over concatenation, so the surviving entries keep their order. */
  lemma {:induction false} PullKeepsOrder(a: seq<FileRef>, b: seq<FileRef>, publicId: string)
    ensures Pull(a + b, publicId) == Pull(a, publicId) + Pull(b, publicId)
    decreases |a|
  {
    if a == [] {
      assert a + b == b;
    } else {
      assert (a + b)[0] == a[0];
      assert (a + b)[1..] == a[1..] + b;
      PullKeepsOrder(a[1..], b, publicId);
    }
  }

  /** Every record satisfies the File schema's required paths. */
  ghost predicate AllConform(s: State) {
    forall k :: k in s.records ==> Conforms(s.records[k])
  }

  /** The cross-store mirror the workflows try to keep: every record has its blob, blob ids are
      not shared between records, and each user's `files` array holds exactly the references of
      that user's records. */
  ghost predicate Consistent(s: State) {
    && (forall k :: k in s.records ==> s.records[k].publicId in s.blobs)
    && (forall k1, k2 :: k1 in s.records && k2 in s.records && k1 != k2 ==>
          s.records[k1].publicId != s.records[k2].publicId)
    && (forall k :: k in s.records ==>
          s.records[k].user in s.users && RefOf(s.records[k]) in s.users[s.records[k].user])
    && (forall u, x :: u in s.users && x in s.users[u] ==>
          exists k :: k in s.records && s.records[k].user == u && RefOf(s.records[k]) == x)
  }
}
