/**
 Object bodies and their metadata (internal/state/store.go, gcp.go, integrity.go).

 Bodies live in generation files whose name hashes the owner, the key and the content; metadata is
 committed by one rename of `state.json`; files that are no longer referenced go afterwards.
 */
module Objects {
  import opened Common

  type Body = string

  /** Everything that owns one body: an S3 object, a part of an upload, a GCS object. */
  datatype Slot = S3(bucket: string, key: string) | Part(upload: string, number: nat) | Gcs(bucket: string, key: string)

  /** `Generation(header, body)` stands for the hex SHA-256 of `header` and the 32-byte digest of
      `body`; the digest has fixed length, so an injective hash makes the pair injective. */
  datatype FileName = Generation(header: string, body: Body) | Temporary(n: nat)

  /** Recorded size and checksum of a body are those of `body`. */
  datatype Meta = Meta(file: FileName, body: Body, etag: string)

  datatype Upload = Upload(bucket: string, key: string)

  /** The object part of a snapshot, flattened: `slots` holds the objects of every bucket and the
      parts of every upload. */
  datatype Catalog = Catalog(
    buckets: set<string>, gcsBuckets: set<string>, uploads: map<string, Upload>, slots: map<Slot, Meta>)

  const EMPTY := Catalog({}, {}, map[], map[])

  /* ------------------------------ File names ------------------------------ */

  function Digit(n: nat): char
    requires n < 10
  {
    "0123456789"[n]
  }

  /** `strconv.Itoa`. */
  function Itoa(n: nat): (s: string)
    ensures |s| > 0 && '\0' !in s
  {
    if n < 10 then [Digit(n)] else Itoa(n / 10) + [Digit(n % 10)]
  }

  lemma {:induction false} ItoaInjective(m: nat, n: nat)
    requires Itoa(m) == Itoa(n)
    ensures m == n
  {
    var s, t := Itoa(m), Itoa(n);
    assert s[|s| - 1] == Digit(m % 10) && t[|t| - 1] == Digit(n % 10);
    assert m % 10 == n % 10;
    if m >= 10 && n >= 10 {
      assert s[..|s| - 1] == Itoa(m / 10) && t[..|t| - 1] == Itoa(n / 10);
      ItoaInjective(m / 10, n / 10);
    }
  }

  function Namespace(slot: Slot): string {
    match slot
    case S3(_, _) => "s3"
    case Part(_, _) => "multipart"
    case Gcs(_, _) => "gcs"
  }

  function Owner(slot: Slot): string {
    if slot.Part? then slot.upload else slot.bucket
  }

  function Key(slot: Slot): string {
    if slot.Part? then Itoa(slot.number) else slot.key
  }

  /** What `generationObjectFile` hashes before the content digest. */
  function Header(slot: Slot): string {
    Namespace(slot) + ['\0'] + (Owner(slot) + ['\0'] + Key(slot) + ['\0'])
  }

  function FileFor(slot: Slot, body: Body): FileName {
    Generation(Header(slot), body)
  }

  predicate NulFree(s: string) {
    '\0' !in s
  }

  /** With NUL-free owners, different slots never share a generation file. */
  lemma FileForInjective(a: Slot, x: Body, b: Slot, y: Body)
    requires NulFree(Owner(a)) && NulFree(Owner(b)) && FileFor(a, x) == FileFor(b, y)
    ensures a == b && x == y
  {
    CutUnique('\0', Namespace(a), Owner(a) + ['\0'] + Key(a) + ['\0'], Namespace(b), Owner(b) + ['\0'] + Key(b) + ['\0']);
    assert Owner(a) + ['\0'] + (Key(a) + ['\0']) == Owner(a) + ['\0'] + Key(a) + ['\0'];
    assert Owner(b) + ['\0'] + (Key(b) + ['\0']) == Owner(b) + ['\0'] + Key(b) + ['\0'];
    CutUnique('\0', Owner(a), Key(a) + ['\0'], Owner(b), Key(b) + ['\0']);
    assert Key(a) == (Key(a) + ['\0'])[..|Key(a)|] == (Key(b) + ['\0'])[..|Key(a)|] == Key(b);
    assert Namespace(a)[0] == Namespace(b)[0];
    if a.Part? && b.Part? {
      ItoaInjective(a.number, b.number);
    }
  }

  /** An object of S3 or of GCS. */
  function ObjectSlot(gcs: bool, bucket: string, key: string): Slot {
    if gcs then Gcs(bucket, key) else S3(bucket, key)
  }

  /** And exactly then: a bucket name with a NUL shares its generation files with a bucket of shorter
      name, in S3 and in GCS. */
  lemma NulMeansCollision(gcs: bool, bucket: string, key: string, body: Body)
    ensures !NulFree(bucket) <==>
              exists b, k :: |b| < |bucket| && NulFree(b) && FileFor(ObjectSlot(gcs, b, k), body) == FileFor(ObjectSlot(gcs, bucket, key), body)
  {
    var slot := ObjectSlot(gcs, bucket, key);
    if !NulFree(bucket) {
      var b, k := CollidingSlot(gcs, bucket, key);
      assert FileFor(ObjectSlot(gcs, b, k), body) == FileFor(slot, body);
    } else if b, k :| |b| < |bucket| && NulFree(b) && FileFor(ObjectSlot(gcs, b, k), body) == FileFor(slot, body) {
      FileForInjective(ObjectSlot(gcs, b, k), body, slot, body);
    }
  }

  lemma CollidingSlot(gcs: bool, bucket: string, key: string) returns (b: string, k: string)
    requires !NulFree(bucket)
    ensures |b| < |bucket| && NulFree(b) && Header(ObjectSlot(gcs, b, k)) == Header(ObjectSlot(gcs, bucket, key))
  {
    var i := FirstNul(bucket);
    b, k := bucket[..i], bucket[i + 1..] + ['\0'] + key;
    assert bucket == b + ['\0'] + bucket[i + 1..];
    SameHeader(b, bucket[i + 1..], key);
    var x, y := ObjectSlot(gcs, b, k), ObjectSlot(gcs, bucket, key);
    assert Namespace(x) == Namespace(y) && Owner(x) == b && Owner(y) == bucket && Key(x) == k && Key(y) == key;
  }

  lemma SameHeader(b: string, tail: string, key: string)
    ensures b + ['\0'] + (tail + ['\0'] + key) + ['\0'] == (b + ['\0'] + tail) + ['\0'] + key + ['\0']
  {
  }

  function FirstNul(s: string): (i: nat)
    requires !NulFree(s)
    ensures i < |s| && s[i] == '\0' && NulFree(s[..i])
  {
    if s[0] == '\0' then 0
    else
      var i := FirstNul(s[1..]);
      assert s[..i + 1] == [s[0]] + s[1..][..i];
      i + 1
  }

  /* ------------------------------ Disk ------------------------------ */

  /** Everything that is persisted: the object part, and the rest of it (queues, tables, documents and
      the other fields of objects), of which only the identity matters here. */
  datatype State = State(catalog: Catalog, rest: string)

  const BLANK := State(EMPTY, "")

  /** `state.json`: the state it decodes to and the length of the encoding. */
  datatype StateFile = StateFile(state: State, bytes: nat)

  /** 256 MiB: `readPersistentStateFile` refuses a longer file, `saveLocked` writes any. */
  const STATE_FILE_LIMIT := 0x1000_0000

  predicate Readable(state: Option<StateFile>) {
    state.Some? ==> state.value.bytes <= STATE_FILE_LIMIT
  }

  /** The data directory: `state.json` and the files under `objects`. */
  datatype Disk = Disk(state: Option<StateFile>, objects: map<FileName, Body>)

  function CommittedState(d: Disk): State {
    if d.state.Some? then d.state.value.state else BLANK
  }

  function Committed(d: Disk): Catalog {
    CommittedState(d).catalog
  }

  /** Every file referenced by the last committed state is there, with its recorded content. */
  ghost predicate Safe(d: Disk) {
    forall s <- Committed(d).slots :: Holds(d.objects, Committed(d).slots[s])
  }

  predicate Holds(objects: map<FileName, Body>, meta: Meta) {
    meta.file in objects && objects[meta.file] == meta.body
  }

  predicate Refers(c: Catalog, f: FileName) {
    exists s <- c.slots :: c.slots[s].file == f
  }

  /** Names are the generation names of their slots; objects have a bucket, parts an upload, and
      every upload's bucket exists. */
  ghost predicate SlotOk(c: Catalog, s: Slot, m: Meta) {
    && m.file == FileFor(s, m.body) && NulFree(Owner(s))
    && match s
       case S3(b, _) => b in c.buckets
       case Gcs(b, _) => b in c.gcsBuckets
       case Part(u, n) => u in c.uploads && 1 <= n <= 10_000
  }

  ghost predicate CatalogOk(c: Catalog) {
    && (forall s <- c.slots :: SlotOk(c, s, c.slots[s]))
    && (forall b <- c.buckets :: NulFree(b)) && (forall b <- c.gcsBuckets :: NulFree(b))
    && (forall u <- c.uploads :: NulFree(u) && c.uploads[u].bucket in c.buckets)
  }

  /** In a well-formed catalog only the slot itself refers to its generation file. */
  lemma ReferencesAreOwn(c: Catalog, slot: Slot, body: Body)
    requires CatalogOk(c) && NulFree(Owner(slot))
    ensures Refers(c, FileFor(slot, body)) <==> slot in c.slots && c.slots[slot].file == FileFor(slot, body)
  {
    if s :| s in c.slots && c.slots[s].file == FileFor(slot, body) {
      assert SlotOk(c, s, c.slots[s]);
      FileForInjective(s, c.slots[s].body, slot, body);
    }
  }

  /** Removing a file the committed state does not refer to is safe; writing a temporary or a
      generation file under its own name always is. */
  lemma RemovalIsSafe(d: Disk, f: FileName)
    requires Safe(d) && !Refers(Committed(d), f)
    ensures Safe(d.(objects := d.objects - {f}))
  {
    forall s | s in Committed(d).slots ensures Holds(d.objects - {f}, Committed(d).slots[s]) {
      assert Holds(d.objects, Committed(d).slots[s]);
    }
  }

  lemma WritingIsSafe(d: Disk, f: FileName, content: Body)
    requires Safe(d) && CatalogOk(Committed(d))
    requires f.Temporary? || f.body == content
    ensures Safe(d.(objects := d.objects[f := content]))
  {
    forall s | s in Committed(d).slots ensures Holds(d.objects[f := content], Committed(d).slots[s]) {
      assert SlotOk(Committed(d), s, Committed(d).slots[s]) && Holds(d.objects, Committed(d).slots[s]);
    }
  }

  /** `PutObject` of a slot that is not there yet, run to its end: the generation file, then the commit. */
  function AfterPut(d: Disk, slot: Slot, body: Body, bytes: nat): Disk {
    Disk(Some(StateFile(CommittedState(d).(catalog := WithSlot(Committed(d), slot, body, "")), bytes)),
         d.objects[FileFor(slot, body) := body])
  }

  /** `DeleteObject` run to its end: commit, then remove the file. */
  function AfterDelete(d: Disk, slot: Slot, bytes: nat): Disk
    requires slot in Committed(d).slots
  {
    var c := Committed(d);
    Disk(Some(StateFile(CommittedState(d).(catalog := c.(slots := c.slots - {slot})), bytes)), d.objects - {c.slots[slot].file})
  }

  /** A NUL in a bucket name, any such name, S3 or GCS, breaks this: after putting the same body into
      that bucket and into the one it collides with, deleting the second object takes away the body
      of the first. */
  lemma NulBucketLosesObject(gcs: bool, bucket: string, key: string, body: Body, bytes: nat) returns (b: string, k: string)
    requires !NulFree(bucket)
    ensures NulFree(b) && b != bucket
    ensures var kept, gone := ObjectSlot(gcs, bucket, key), ObjectSlot(gcs, b, k);
            var buckets := {bucket, b};
            var start := Disk(Some(StateFile(BLANK.(catalog := EMPTY.(buckets := buckets, gcsBuckets := buckets)), bytes)), map[]);
            var put := AfterPut(AfterPut(start, kept, body, bytes), gone, body, bytes);
            && Safe(start) && Safe(put) && gone in Committed(put).slots && kept in Committed(put).slots
            && !Safe(AfterDelete(put, gone, bytes))
  {
    b, k := CollidingSlot(gcs, bucket, key);
    var kept, gone := ObjectSlot(gcs, bucket, key), ObjectSlot(gcs, b, k);
    assert FileFor(kept, body) == FileFor(gone, body) && kept != gone;
    hide FileFor;
    var buckets := {bucket, b};
    var start := Disk(Some(StateFile(BLANK.(catalog := EMPTY.(buckets := buckets, gcsBuckets := buckets)), bytes)), map[]);
    var put := AfterPut(AfterPut(start, kept, body, bytes), gone, body, bytes);
    var after := AfterDelete(put, gone, bytes);
    assert kept in Committed(after).slots && !Holds(after.objects, Committed(after).slots[kept]);
  }

  /* ------------------------------ Catalog changes ------------------------------ */

  function WithoutUpload(c: Catalog, upload: string): Catalog {
    c.(uploads := c.uploads - {upload},
       slots := map s | s in c.slots && !(s.Part? && s.upload == upload) :: c.slots[s])
  }

  function WithSlot(c: Catalog, slot: Slot, body: Body, etag: string): Catalog {
    c.(slots := c.slots[slot := Meta(FileFor(slot, body), body, etag)])
  }

  function PartFiles(c: Catalog, upload: string): set<FileName> {
    set s | s in c.slots && s.Part? && s.upload == upload :: c.slots[s].file
  }

  function AllFiles(c: Catalog): set<FileName> {
    set s | s in c.slots :: c.slots[s].file
  }
}
