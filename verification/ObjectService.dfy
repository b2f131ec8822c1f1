/**
 The store's object methods.  Every change of the data directory goes through one of four calls and
 is recorded in `trace`, so that a crash leaves some element of `trace`; whether a call fails is a
 parameter.
 */
module ObjectService {
  import opened Common
  import opened Objects

  datatype Error =
    | BucketNotFound | BucketNotEmpty | ObjectNotFound | UploadNotFound
    | InvalidPart | InvalidPartOrder | EntityTooSmall | IoFailed

  /** A request to the store, with the outcomes of its file system calls. */
  datatype ObjectOp =
    | CreateBucketOp(bucket: string, saving: Saving)
    | CreateGcsBucketOp(bucket: string, saving: Saving)
    | DeleteBucketOp(bucket: string, saving: Saving)
    | DeleteGcsBucketOp(bucket: string, saving: Saving)
    | PutOp(bucket: string, key: string, body: Body, etag: string, n: nat, io: Io)
    | PutGcsOp(bucket: string, key: string, body: Body, etag: string, n: nat, io: Io)
    | DeleteOp(slot: Slot, saving: Saving)
    | CreateUploadOp(bucket: string, key: string, id: string, saving: Saving)
    | UploadPartOp(bucket: string, key: string, id: string, number: int, body: Body, etag: string, n: nat, io: Io)
    | CompleteOp(bucket: string, key: string, id: string, completed: seq<Completed>, etag: string, n: nat, io: Io)
    | AbortOp(bucket: string, key: string, id: string, saving: Saving)
    | OtherOp(saving: Saving)
    | ResetWorkloadOp(saving: Saving)
    | ResetOp(saving: Saving)

  /** New buckets and upload ids have no NUL in their names. */
  predicate WellNamed(op: ObjectOp) {
    match op
    case CreateBucketOp(b, _) => NulFree(b)
    case CreateGcsBucketOp(b, _) => NulFree(b)
    case CreateUploadOp(_, _, id, _) => NulFree(id)
    case DeleteOp(slot, _) => !slot.Part?
    case _ => true
  }

  /** The outcome of `saveLocked`: it fails, or commits the catalog together with the rest of the state
      (object events may have gone to queues) in an encoding of some length. */
  datatype Saving = Fails | Commits(rest: string, bytes: nat)

  predicate Fits(saving: Saving) {
    saving.Commits? ==> saving.bytes <= STATE_FILE_LIMIT
  }

  /** Whether the rename into place and the directory sync succeed, and what the save does. */
  datatype Io = Io(rename: bool, sync: bool, save: Saving)

  ghost predicate AllSafe(trace: seq<Disk>) {
    forall i :: 0 <= i < |trace| ==> Safe(trace[i]) && CatalogOk(Committed(trace[i]))
  }

  ghost predicate AllReadable(trace: seq<Disk>) {
    forall i :: 0 <= i < |trace| ==> Readable(trace[i].state)
  }

  /** The trace goes on, and no `state.json` on the way is too long unless this save makes it so. */
  ghost predicate Continues(before: seq<Disk>, after: seq<Disk>, saving: Saving) {
    before <= after && (AllReadable(before) && Fits(saving) ==> AllReadable(after))
  }

  /** Replacing one slot, and dropping others, keeps a catalog well-formed. */
  ghost predicate Replaces(c: Catalog, next: Catalog, slot: Slot, body: Body) {
    && CatalogOk(next) && NulFree(Owner(slot))
    && slot in next.slots && next.slots[slot].file == FileFor(slot, body) && next.slots[slot].body == body
    && forall s <- next.slots :: s != slot ==> s in c.slots && next.slots[s] == c.slots[s]
  }

  class ObjectStore {
    var live: Catalog
    var rest: string
    var disk: Disk
    ghost var trace: seq<Disk>

    /** The data directory is safe now and was at every earlier step. */
    ghost predicate DiskOk()
      reads this
    {
      && |trace| > 0 && trace[|trace| - 1] == disk && AllSafe(trace)
      && CatalogOk(Committed(disk))
    }

    /** Between operations memory and disk agree. */
    ghost predicate Valid()
      reads this
    {
      DiskOk() && State(live, rest) == CommittedState(disk)
    }

    constructor ()
      ensures Valid() && State(live, rest) == BLANK && trace == [Disk(None, map[])] && disk == Disk(None, map[])
    {
      live, rest := EMPTY, "";
      disk := Disk(None, map[]);
      trace := [Disk(None, map[])];
    }

    /** A store over a directory found safe, with the catalog it holds; `earlier` are the directories
        that were seen while opening it. */
    constructor Over(found: Disk, ghost earlier: seq<Disk>)
      requires AllSafe(earlier + [found])
      ensures Valid() && disk == found && trace == earlier + [found]
    {
      live, rest := Committed(found), CommittedState(found).rest;
      disk := found;
      trace := earlier + [found];
      assert (earlier + [found])[|earlier|] == found;
    }

    /* --------------- The four calls that change the data directory --------------- */

    method WriteFile(f: FileName, content: Body)
      requires DiskOk() && (f.Temporary? || f.body == content)
      modifies this
      ensures DiskOk() && Continues(old(trace), trace, Fails) && live == old(live) && rest == old(rest)
      ensures disk == old(disk).(objects := old(disk.objects)[f := content])
    {
      WritingIsSafe(disk, f, content);
      disk := disk.(objects := disk.objects[f := content]);
      trace := trace + [disk];
    }

    method RemoveFile(f: FileName)
      requires DiskOk() && !Refers(Committed(disk), f)
      modifies this
      ensures DiskOk() && Continues(old(trace), trace, Fails) && live == old(live) && rest == old(rest)
      ensures disk == old(disk).(objects := old(disk.objects) - {f})
    {
      RemovalIsSafe(disk, f);
      disk := disk.(objects := disk.objects - {f});
      trace := trace + [disk];
    }

    /** One rename replaces the temporary file by the generation file. */
    method RenameTemporary(n: nat, f: FileName)
      requires DiskOk() && Temporary(n) in disk.objects && f.Generation? && disk.objects[Temporary(n)] == f.body
      modifies this
      ensures DiskOk() && Continues(old(trace), trace, Fails) && live == old(live) && rest == old(rest)
      ensures disk == old(disk).(objects := old(disk.objects)[f := f.body] - {Temporary(n)})
    {
      WritingIsSafe(disk, f, f.body);
      var d := disk.(objects := disk.objects[f := f.body]);
      assert !Refers(Committed(d), Temporary(n)) by {
        forall s | s in Committed(d).slots ensures Committed(d).slots[s].file != Temporary(n) {
          assert SlotOk(Committed(d), s, Committed(d).slots[s]);
        }
      }
      RemovalIsSafe(d, Temporary(n));
      disk := d.(objects := d.objects - {Temporary(n)});
      trace := trace + [disk];
    }

    /** `saveLocked`: the state in memory becomes the committed one, or the committed one is loaded again. */
    method Save(saving: Saving)
      requires DiskOk() && CatalogOk(live)
      requires forall s <- live.slots :: Holds(disk.objects, live.slots[s])
      modifies this
      ensures Valid() && Continues(old(trace), trace, saving) && disk.objects == old(disk.objects)
      ensures saving.Commits? ==> live == old(live) && rest == saving.rest && disk.state == Some(StateFile(State(live, rest), saving.bytes))
      ensures saving.Fails? ==> disk == old(disk)
    {
      match saving
      case Commits(more, bytes) =>
        rest := more;
        disk := disk.(state := Some(StateFile(State(live, rest), bytes)));
        trace := trace + [disk];
      case Fails =>
        live, rest := Committed(disk), CommittedState(disk).rest;
    }

    /** A save of another engine: the catalog stays. */
    method SaveRest(saving: Saving)
      requires Valid()
      modifies this
      ensures Valid() && Continues(old(trace), trace, saving) && live == old(live) && disk.objects == old(disk.objects)
      ensures saving.Commits? ==> disk.state == Some(StateFile(State(live, saving.rest), saving.bytes))
      ensures saving.Fails? ==> disk == old(disk)
    {
      Save(saving);
    }

    method RemoveFiles(files: set<FileName>)
      requires Valid() && forall f <- files :: !Refers(live, f)
      modifies this
      ensures Valid() && Continues(old(trace), trace, Fails) && live == old(live) && rest == old(rest)
      ensures disk == old(disk).(objects := old(disk.objects) - files)
    {
      var todo := files;
      while todo != {}
        invariant Valid() && Continues(old(trace), trace, Fails) && live == old(live) && todo <= files
        invariant disk == old(disk).(objects := old(disk.objects) - (files - todo))
        decreases |todo|
      {
        var f :| f in todo;
        todo := todo - {f};
        RemoveFile(f);
        assert old(disk.objects) - (files - todo) == old(disk.objects) - (files - (todo + {f})) - {f};
      }
      assert old(disk.objects) - (files - {}) == old(disk.objects) - files;
    }

    /* --------------- Writing a body --------------- */

    /** The new generation file in place, or the temporary file gone again. */
    method InstallBody(file: FileName, n: nat, renameOk: bool)
      requires Valid() && file.Generation?
      modifies this
      ensures Valid() && Continues(old(trace), trace, Fails) && live == old(live)
      ensures disk.state == old(disk.state)
      ensures renameOk ==> file in disk.objects && disk.objects[file] == file.body
    {
      WriteFile(Temporary(n), []);
      WriteFile(Temporary(n), file.body);
      if renameOk {
        RenameTemporary(n, file);
      } else {
        assert !Refers(live, Temporary(n)) by {
          forall s | s in live.slots ensures live.slots[s].file != Temporary(n) {
            assert SlotOk(live, s, live.slots[s]);
          }
        }
        RemoveFile(Temporary(n));
      }
    }

    /** Temporary file, rename, sync and commit; a file that did not make it into the committed state
        is removed unless the slot already refers to it. */
    method CommitBody(slot: Slot, body: Body, next: Catalog, n: nat, io: Io) returns (ok: bool)
      requires Valid() && Replaces(live, next, slot, body)
      modifies this
      ensures Valid() && Continues(old(trace), trace, io.save)
      ensures ok == (io.rename && io.sync && io.save.Commits?)
      ensures live == if ok then next else old(live)
    {
      var file := FileFor(slot, body);
      var unused := slot !in live.slots || live.slots[slot].file != file;
      ReferencesAreOwn(live, slot, body);
      InstallBody(file, n, io.rename);
      if !io.rename {
        return false;
      }
      if io.sync {
        CommitInstalled(slot, body, next, io.save);
      }
      ok := io.sync && io.save.Commits?;
      if !ok && unused {
        RemoveFile(file);
      }
    }

    method CommitInstalled(slot: Slot, body: Body, next: Catalog, saving: Saving)
      requires Valid() && Replaces(live, next, slot, body)
      requires Holds(disk.objects, next.slots[slot])
      modifies this
      ensures Valid() && Continues(old(trace), trace, saving) && live == if saving.Commits? then next else old(live)
    {
      forall s | s in next.slots ensures Holds(disk.objects, next.slots[s]) {
        if s != slot { assert Holds(disk.objects, live.slots[s]); }
      }
      live := next;
      Save(saving);
    }

    /** After the commit, the file of the replaced body goes if the new one has another name. */
    method RemovePrevious(slot: Slot, previous: Option<Meta>)
      requires Valid() && slot in live.slots && NulFree(Owner(slot))
      requires previous.Some? ==> previous.value.file == FileFor(slot, previous.value.body)
      modifies this
      ensures Valid() && Continues(old(trace), trace, Fails) && live == old(live)
    {
      if previous.Some? && previous.value.file != live.slots[slot].file {
        ReferencesAreOwn(live, slot, previous.value.body);
        RemoveFile(previous.value.file);
      }
    }

    /** The shared course of `PutObject`, `UploadMultipartPart` and `PutGCSObject`. */
    method Replace(slot: Slot, body: Body, next: Catalog, n: nat, io: Io) returns (ok: bool)
      requires Valid() && Replaces(live, next, slot, body)
      modifies this
      ensures Valid() && Continues(old(trace), trace, io.save)
      ensures ok == (io.rename && io.sync && io.save.Commits?)
      ensures live == if ok then next else old(live)
    {
      var previous := if slot in live.slots then Some(live.slots[slot]) else None;
      assert previous.Some? ==> SlotOk(live, slot, previous.value);
      ok := CommitBody(slot, body, next, n, io);
      if ok {
        RemovePrevious(slot, previous);
      }
    }

    method PutObject(bucket: string, key: string, body: Body, etag: string, n: nat, io: Io) returns (error: Option<Error>)
      requires Valid()
      modifies this
      ensures Valid() && Continues(old(trace), trace, io.save)
      ensures error.None? ==> bucket in old(live.buckets) && live == WithSlot(old(live), S3(bucket, key), body, etag)
      ensures error.None? ==> Holding(old(live), live, S3(bucket, key), body, etag, {}) && live.uploads == old(live).uploads
      ensures error.Some? ==> live == old(live)
      ensures error.None? <==> bucket in old(live.buckets) && io.rename && io.sync && io.save.Commits?
      ensures error == Some(BucketNotFound) <==> bucket !in old(live.buckets)
    {
      if bucket !in live.buckets {
        return Some(BucketNotFound);
      }
      var next := WithSlot(live, S3(bucket, key), body, etag);
      assert Replaces(live, next, S3(bucket, key), body);
      var ok := Replace(S3(bucket, key), body, next, n, io);
      error := if ok then None else Some(IoFailed);
    }

    method PutGcsObject(bucket: string, key: string, body: Body, etag: string, n: nat, io: Io) returns (error: Option<Error>)
      requires Valid()
      modifies this
      ensures Valid() && Continues(old(trace), trace, io.save)
      ensures error.None? ==> bucket in old(live.gcsBuckets) && live == WithSlot(old(live), Gcs(bucket, key), body, etag)
      ensures error.None? ==> Holding(old(live), live, Gcs(bucket, key), body, etag, {}) && live.uploads == old(live).uploads
      ensures error.Some? ==> live == old(live)
      ensures error.None? <==> bucket in old(live.gcsBuckets) && io.rename && io.sync && io.save.Commits?
      ensures error == Some(BucketNotFound) <==> bucket !in old(live.gcsBuckets)
    {
      if bucket !in live.gcsBuckets {
        return Some(BucketNotFound);
      }
      var next := WithSlot(live, Gcs(bucket, key), body, etag);
      assert Replaces(live, next, Gcs(bucket, key), body);
      var ok := Replace(Gcs(bucket, key), body, next, n, io);
      error := if ok then None else Some(IoFailed);
    }

    method UploadPart(bucket: string, key: string, upload: string, number: int, body: Body, etag: string, n: nat, io: Io)
      returns (error: Option<Error>)
      requires Valid()
      modifies this
      ensures Valid() && Continues(old(trace), trace, io.save)
      ensures error.None? ==> number >= 1 && live == WithSlot(old(live), Part(upload, number), body, etag)
      ensures error.None? ==> Holding(old(live), live, Part(upload, number), body, etag, {}) && live.uploads == old(live).uploads
      ensures error.Some? ==> live == old(live)
      ensures error.None? <==>
                && 1 <= number <= 10_000 && upload in old(live.uploads) && old(live.uploads)[upload] == Upload(bucket, key)
                && io.rename && io.sync && io.save.Commits?
    {
      if number < 1 || number > 10_000 {
        return Some(InvalidPart);
      }
      if upload !in live.uploads || live.uploads[upload] != Upload(bucket, key) {
        return Some(UploadNotFound);
      }
      var next := WithSlot(live, Part(upload, number), body, etag);
      assert Replaces(live, next, Part(upload, number), body);
      var ok := Replace(Part(upload, number), body, next, n, io);
      error := if ok then None else Some(IoFailed);
    }

    /* --------------- Completing an upload --------------- */

    /** The checks of `CompleteMultipartUpload`, part by part. */
    static method CollectParts(c: Catalog, upload: string, completed: seq<Completed>) returns (r: Result<seq<Meta>, Error>)
      ensures r.Err? ==> FirstPartError(c, upload, completed, |completed|) == Some(r.error)
      ensures r.Ok? ==> FirstPartError(c, upload, completed, |completed|).None?
      ensures r.Ok? ==> Listed(c, upload, completed, r.value, |completed|)
    {
      hide EtagMatches;
      var parts: seq<Meta>, previous := [], 0;
      var i := 0;
      while i < |completed|
        invariant i <= |completed| && 0 <= previous == if i == 0 then 0 else completed[i - 1].number
        invariant FirstPartError(c, upload, completed, i).None?
        invariant Listed(c, upload, completed, parts, i)
      {
        var requested := completed[i];
        if requested.number <= previous {
          FirstErrorStays(c, upload, completed, i, |completed|);
          return Err(InvalidPartOrder);
        }
        if Part(upload, requested.number) !in c.slots || !EtagMatches(requested.etag, c.slots[Part(upload, requested.number)].etag) {
          FirstErrorStays(c, upload, completed, i, |completed|);
          return Err(InvalidPart);
        }
        var part := c.slots[Part(upload, requested.number)];
        if i < |completed| - 1 && |part.body| < MIN_PART {
          FirstErrorStays(c, upload, completed, i, |completed|);
          return Err(EntityTooSmall);
        }
        ListedSnoc(c, upload, completed, parts, part);
        parts := parts + [part];
        previous := requested.number;
        i := i + 1;
      }
      r := Ok(parts);
    }

    /** The part files, read and appended in the order given. */
    static method ReadParts(objects: map<FileName, Body>, parts: seq<Meta>) returns (body: Body)
      requires forall i :: 0 <= i < |parts| ==> Holds(objects, parts[i])
      ensures body == Joined(parts)
    {
      body := "";
      var i := 0;
      while i < |parts|
        invariant i <= |parts| && body == Joined(parts[..i])
      {
        assert parts[..i + 1][..i] == parts[..i];
        body := body + objects[parts[i].file];
        i := i + 1;
      }
      assert parts[..i] == parts;
    }

    /** An accepted completion stores the listed parts joined in ascending part order and removes the
        upload; a rejected or failed one changes nothing. */
    method CompleteUpload(bucket: string, key: string, upload: string, completed: seq<Completed>, etag: string, n: nat, io: Io)
      returns (r: Result<seq<Meta>, Error>)
      requires Valid()
      modifies this
      ensures Valid() && Continues(old(trace), trace, io.save)
      ensures r.Err? ==> live == old(live)
      ensures r.Ok? ==> live == WithSlot(WithoutUpload(old(live), upload), S3(bucket, key), Joined(r.value), etag)
      ensures r.Ok? ==> completed != [] && Listed(old(live), upload, completed, r.value, |completed|)
      ensures r.Ok? <==>
                && upload in old(live.uploads) && old(live.uploads)[upload] == Upload(bucket, key) && completed != []
                && FirstPartError(old(live), upload, completed, |completed|).None?
                && io.rename && io.sync && io.save.Commits?
      ensures r == Err(UploadNotFound) <==> upload !in old(live.uploads) || old(live.uploads)[upload] != Upload(bucket, key)
      ensures upload in old(live.uploads) && old(live.uploads)[upload] == Upload(bucket, key) ==>
                && (completed == [] ==> r == Err(InvalidPart))
                && (completed != [] && AllGood(old(live), upload, completed, |completed|) ==>
                      if io.rename && io.sync && io.save.Commits? then r.Ok? else r == Err(IoFailed))
                && (forall i: nat :: i < |completed| && AllGood(old(live), upload, completed, i) && !Good(old(live), upload, completed, i) ==>
                      r == Err(Complaint(old(live), upload, completed, i)))
      ensures r.Ok? ==> Completes(old(live), S3(bucket, key), upload, completed, r.value, etag, live)
    {
      hide EtagMatches, Good, Complaint, FirstPartError, Completes, Joined, WithSlot, WithoutUpload;
      FirstBadDecides(live, upload, completed, |completed|);
      if upload !in live.uploads || live.uploads[upload] != Upload(bucket, key) {
        return Err(UploadNotFound);
      }
      if completed == [] {
        return Err(InvalidPart);
      }
      r := CollectParts(live, upload, completed);
      if r.Err? {
        return;
      }
      forall i | 0 <= i < |completed| ensures Holds(disk.objects, r.value[i]) {
        assert ListedAt(live, upload, completed, r.value, i);
      }
      CompletionCompletes(live, S3(bucket, key), upload, completed, r.value, etag);
      var ok := FinishUpload(S3(bucket, key), upload, r.value, etag, n, io);
      if !ok {
        return Err(IoFailed);
      }
    }

    /** The part files joined and committed; then they and the replaced body go. */
    method FinishUpload(slot: Slot, upload: string, parts: seq<Meta>, etag: string, n: nat, io: Io) returns (ok: bool)
      requires Valid() && slot.S3? && upload in live.uploads && live.uploads[upload].bucket == slot.bucket
      requires forall i :: 0 <= i < |parts| ==> Holds(disk.objects, parts[i])
      modifies this
      ensures Valid() && Continues(old(trace), trace, io.save)
      ensures ok == (io.rename && io.sync && io.save.Commits?)
      ensures live == if ok then WithSlot(WithoutUpload(old(live), upload), slot, Joined(parts), etag) else old(live)
    {
      var previous := if slot in live.slots then Some(live.slots[slot]) else None;
      assert previous.Some? ==> SlotOk(live, slot, previous.value);
      var body := ReadParts(disk.objects, parts);
      var next := WithSlot(WithoutUpload(live, upload), slot, body, etag);
      var files := PartFiles(live, upload);
      CompletionOk(live, upload, slot, body, etag);
      ok := CommitBody(slot, body, next, n, io);
      if ok {
        RemoveFiles(files);
        RemovePrevious(slot, previous);
      }
    }

    /* --------------- Catalog changes that only free files --------------- */

    /** Commits a catalog that keeps a part of the slots, then removes the files of the others. */
    method Shrink(next: Catalog, files: set<FileName>, saving: Saving)
      requires Valid() && CatalogOk(next)
      requires forall s <- next.slots :: s in live.slots && next.slots[s] == live.slots[s]
      requires forall f <- files :: !Refers(next, f)
      modifies this
      ensures Valid() && Continues(old(trace), trace, saving)
      ensures live == if saving.Commits? then next else old(live)
      ensures saving.Commits? ==> disk.objects == old(disk.objects) - files
    {
      forall s | s in next.slots ensures Holds(disk.objects, next.slots[s]) {
        assert Holds(disk.objects, live.slots[s]);
      }
      live := next;
      Save(saving);
      if saving.Commits? {
        RemoveFiles(files);
      }
    }

    method DeleteSlot(slot: Slot, saving: Saving) returns (error: Option<Error>)
      requires Valid() && !slot.Part?
      modifies this
      ensures Valid() && Continues(old(trace), trace, saving)
      ensures error.None? ==> live == old(live).(slots := old(live).slots - {slot})
      ensures error.Some? ==> live == old(live)
      ensures error.None? <==>
                && slot.bucket in (if slot.S3? then old(live.buckets) else old(live.gcsBuckets))
                && (if slot in old(live.slots) then saving.Commits? else slot.S3?)
    {
      if !(if slot.S3? then slot.bucket in live.buckets else slot.bucket in live.gcsBuckets) {
        return Some(BucketNotFound);
      }
      if slot !in live.slots {
        return if slot.S3? then None else Some(ObjectNotFound);
      }
      var next := live.(slots := live.slots - {slot});
      var meta := live.slots[slot];
      assert SlotOk(live, slot, meta);
      assert CatalogOk(next);
      ReferencesAreOwn(next, slot, meta.body);
      Shrink(next, {meta.file}, saving);
      error := if saving.Commits? then None else Some(IoFailed);
    }

    method AbortUpload(bucket: string, key: string, upload: string, saving: Saving) returns (error: Option<Error>)
      requires Valid()
      modifies this
      ensures Valid() && Continues(old(trace), trace, saving)
      ensures error.None? ==>
                && live == old(live).(uploads := old(live).uploads - {upload}, slots := live.slots)
                && live.slots == map s | s in old(live).slots && !(s.Part? && s.upload == upload) :: old(live).slots[s]
      ensures error.Some? ==> live == old(live)
      ensures error.None? <==> upload in old(live.uploads) && old(live.uploads)[upload] == Upload(bucket, key) && saving.Commits?
    {
      if upload !in live.uploads || live.uploads[upload] != Upload(bucket, key) {
        return Some(UploadNotFound);
      }
      UploadRemovalOk(live, upload);
      Shrink(WithoutUpload(live, upload), PartFiles(live, upload), saving);
      error := if saving.Commits? then None else Some(IoFailed);
    }

    /** `ResetWorkloadData`: buckets stay, every object, part and upload goes. */
    method ResetWorkload(saving: Saving)
      requires Valid()
      modifies this
      ensures Valid() && Continues(old(trace), trace, saving)
      ensures live == if saving.Commits? then old(live).(uploads := map[], slots := map[]) else old(live)
      ensures saving.Commits? ==> disk.objects == old(disk.objects) - AllFiles(old(live))
    {
      Shrink(live.(uploads := map[], slots := map[]), AllFiles(live), saving);
    }

    /** `Reset`: everything goes, with every file in the directory. */
    method Reset(saving: Saving)
      requires Valid()
      modifies this
      ensures Valid() && Continues(old(trace), trace, saving)
      ensures live == if saving.Commits? then EMPTY else old(live)
      ensures saving.Commits? ==> disk.objects == map[]
    {
      Shrink(EMPTY, disk.objects.Keys, saving);
    }

    method CreateBucket(name: string, saving: Saving) returns (error: Option<Error>)
      requires Valid() && NulFree(name)
      modifies this
      ensures Valid() && Continues(old(trace), trace, saving)
      ensures live == if error.None? then old(live).(buckets := old(live).buckets + {name}) else old(live)
      ensures error.None? <==> name in old(live.buckets) || saving.Commits?
    {
      if name in live.buckets {
        assert live.buckets + {name} == live.buckets;
        return None;
      }
      var next := live.(buckets := live.buckets + {name});
      assert CatalogOk(next);
      Shrink(next, {}, saving);
      error := if saving.Commits? then None else Some(IoFailed);
    }

    method CreateGcsBucket(name: string, saving: Saving) returns (error: Option<Error>)
      requires Valid() && NulFree(name)
      modifies this
      ensures Valid() && Continues(old(trace), trace, saving)
      ensures live == if error.None? then old(live).(gcsBuckets := old(live).gcsBuckets + {name}) else old(live)
      ensures error.None? <==> name in old(live.gcsBuckets) || saving.Commits?
    {
      if name in live.gcsBuckets {
        assert live.gcsBuckets + {name} == live.gcsBuckets;
        return None;
      }
      var next := live.(gcsBuckets := live.gcsBuckets + {name});
      assert CatalogOk(next);
      Shrink(next, {}, saving);
      error := if saving.Commits? then None else Some(IoFailed);
    }

    method DeleteGcsBucket(name: string, saving: Saving) returns (error: Option<Error>)
      requires Valid()
      modifies this
      ensures Valid() && Continues(old(trace), trace, saving)
      ensures live == if error.None? then old(live).(gcsBuckets := old(live).gcsBuckets - {name}) else old(live)
      ensures error == Some(BucketNotFound) <==> name !in old(live.gcsBuckets)
      ensures error.None? ==> saving.Commits?
      ensures error == Some(IoFailed) ==> !saving.Commits?
      ensures error == Some(BucketNotEmpty) <==>
                name in old(live.gcsBuckets) && exists s <- old(live.slots) :: s.Gcs? && s.bucket == name
    {
      if name !in live.gcsBuckets {
        return Some(BucketNotFound);
      }
      if exists s <- live.slots :: s.Gcs? && s.bucket == name {
        return Some(BucketNotEmpty);
      }
      var next := live.(gcsBuckets := live.gcsBuckets - {name});
      assert CatalogOk(next) by {
        forall s | s in next.slots ensures SlotOk(next, s, next.slots[s]) { assert SlotOk(live, s, live.slots[s]); }
      }
      Shrink(next, {}, saving);
      error := if saving.Commits? then None else Some(IoFailed);
    }

    /** A bucket with objects or with open uploads is not deleted, so no upload ever loses its bucket. */
    method DeleteBucket(name: string, saving: Saving) returns (error: Option<Error>)
      requires Valid()
      modifies this
      ensures Valid() && Continues(old(trace), trace, saving)
      ensures live == if error.None? then old(live).(buckets := old(live).buckets - {name}) else old(live)
      ensures error == Some(BucketNotFound) <==> name !in old(live.buckets)
      ensures error.None? ==> saving.Commits?
      ensures error == Some(IoFailed) ==> !saving.Commits?
      ensures error == Some(BucketNotEmpty) <==>
                && name in old(live.buckets)
                && (|| (exists s <- old(live.slots) :: s.S3? && s.bucket == name)
                    || (exists u <- old(live.uploads) :: old(live.uploads)[u].bucket == name))
    {
      if name !in live.buckets {
        return Some(BucketNotFound);
      }
      if exists s <- live.slots :: s.S3? && s.bucket == name {
        return Some(BucketNotEmpty);
      }
      if exists u <- live.uploads :: live.uploads[u].bucket == name {
        return Some(BucketNotEmpty);
      }
      var next := live.(buckets := live.buckets - {name});
      assert CatalogOk(next) by {
        forall s | s in next.slots ensures SlotOk(next, s, next.slots[s]) { assert SlotOk(live, s, live.slots[s]); }
      }
      Shrink(next, {}, saving);
      error := if saving.Commits? then None else Some(IoFailed);
    }

    method CreateUpload(bucket: string, key: string, id: string, saving: Saving) returns (error: Option<Error>)
      requires Valid() && NulFree(id) && id !in live.uploads
      modifies this
      ensures Valid() && Continues(old(trace), trace, saving)
      ensures live == if error.None? then old(live).(uploads := old(live).uploads[id := Upload(bucket, key)]) else old(live)
      ensures error.None? <==> bucket in old(live.buckets) && saving.Commits?
    {
      if bucket !in live.buckets {
        return Some(BucketNotFound);
      }
      var next := live.(uploads := live.uploads[id := Upload(bucket, key)]);
      assert CatalogOk(next) by {
        forall s | s in next.slots ensures SlotOk(next, s, next.slots[s]) { assert SlotOk(live, s, live.slots[s]); }
      }
      Shrink(next, {}, saving);
      error := if saving.Commits? then None else Some(IoFailed);
    }
  }

  function SavingOf(op: ObjectOp): Saving {
    match op
    case PutOp(_, _, _, _, _, io) => io.save
    case PutGcsOp(_, _, _, _, _, io) => io.save
    case UploadPartOp(_, _, _, _, _, _, _, io) => io.save
    case CompleteOp(_, _, _, _, _, _, io) => io.save
    case CreateBucketOp(_, saving) => saving
    case CreateGcsBucketOp(_, saving) => saving
    case DeleteBucketOp(_, saving) => saving
    case DeleteGcsBucketOp(_, saving) => saving
    case DeleteOp(_, saving) => saving
    case CreateUploadOp(_, _, _, saving) => saving
    case AbortOp(_, _, _, saving) => saving
    case OtherOp(saving) => saving
    case ResetWorkloadOp(saving) => saving
    case ResetOp(saving) => saving
  }

  /** Any request; an upload id that is in use is not drawn again. */
  method Operate(store: ObjectStore, op: ObjectOp)
    requires store.Valid() && WellNamed(op)
    modifies store
    ensures store.Valid() && Continues(old(store.trace), store.trace, SavingOf(op))
  {
    match op {
      case CreateBucketOp(b, saving) => var _ := store.CreateBucket(b, saving);
      case CreateGcsBucketOp(b, saving) => var _ := store.CreateGcsBucket(b, saving);
      case DeleteBucketOp(b, saving) => var _ := store.DeleteBucket(b, saving);
      case DeleteGcsBucketOp(b, saving) => var _ := store.DeleteGcsBucket(b, saving);
      case PutOp(b, k, body, etag, n, io) => var _ := store.PutObject(b, k, body, etag, n, io);
      case PutGcsOp(b, k, body, etag, n, io) => var _ := store.PutGcsObject(b, k, body, etag, n, io);
      case DeleteOp(slot, saving) => var _ := store.DeleteSlot(slot, saving);
      case CreateUploadOp(b, k, id, saving) => if id !in store.live.uploads { var _ := store.CreateUpload(b, k, id, saving); }
      case UploadPartOp(b, k, id, number, body, etag, n, io) => var _ := store.UploadPart(b, k, id, number, body, etag, n, io);
      case CompleteOp(b, k, id, completed, etag, n, io) => var _ := store.CompleteUpload(b, k, id, completed, etag, n, io);
      case AbortOp(b, k, id, saving) => var _ := store.AbortUpload(b, k, id, saving);
      case OtherOp(saving) => store.SaveRest(saving);
      case ResetWorkloadOp(saving) => store.ResetWorkload(saving);
      case ResetOp(saving) => store.Reset(saving);
    }
  }

  /** Any run of requests: the store stays valid and every directory on the way is recorded as safe,
      and readable if no save writes a `state.json` over the limit. */
  method OperateAll(store: ObjectStore, ops: seq<ObjectOp>)
    requires store.Valid() && forall op <- ops :: WellNamed(op)
    modifies store
    ensures store.Valid() && old(store.trace) <= store.trace
    ensures AllReadable(old(store.trace)) && (forall op <- ops :: Fits(SavingOf(op))) ==> AllReadable(store.trace)
  {
    var i := 0;
    while i < |ops|
      invariant i <= |ops| && store.Valid() && old(store.trace) <= store.trace
      invariant AllReadable(old(store.trace)) && (forall op <- ops :: Fits(SavingOf(op))) ==> AllReadable(store.trace)
    {
      Operate(store, ops[i]);
      i := i + 1;
    }
  }

  /** The part files of a removed upload belong to no other slot. */
  lemma UploadRemovalOk(c: Catalog, upload: string)
    requires CatalogOk(c)
    ensures CatalogOk(WithoutUpload(c, upload))
    ensures forall f <- PartFiles(c, upload) :: !Refers(WithoutUpload(c, upload), f)
  {
    var next := WithoutUpload(c, upload);
    forall s | s in next.slots ensures SlotOk(next, s, next.slots[s]) {
      assert SlotOk(c, s, c.slots[s]);
    }
    forall f | f in PartFiles(c, upload) ensures !Refers(next, f) {
      var p :| p in c.slots && p.Part? && p.upload == upload && c.slots[p].file == f;
      assert SlotOk(c, p, c.slots[p]);
      ReferencesAreOwn(next, p, c.slots[p].body);
    }
  }

  /* ------------------------------ Multipart completion ------------------------------ */

  /** 5 MiB. */
  const MIN_PART := 5_242_880

  datatype Completed = Completed(number: int, etag: string)

  function TrimQuotes(s: string): string {
    if |s| > 0 && s[0] == '"' then TrimQuotes(s[1..])
    else if |s| > 0 && s[|s| - 1] == '"' then TrimQuotes(s[..|s| - 1])
    else s
  }

  predicate EtagMatches(requested: string, stored: string) {
    Lower(TrimQuotes(requested)) == Lower(stored)
  }

  function Previous(completed: seq<Completed>, i: nat): int
    requires i < |completed|
  {
    if i == 0 then 0 else completed[i - 1].number
  }

  /** The listed part exists, is listed after the previous one, matches, and is large enough unless it is the last. */
  predicate Accepted(c: Catalog, upload: string, completed: seq<Completed>, i: nat)
    requires i < |completed|
  {
    && completed[i].number > Previous(completed, i) && completed[i].number > 0
    && Part(upload, completed[i].number) in c.slots
    && var part := c.slots[Part(upload, completed[i].number)];
    && EtagMatches(completed[i].etag, part.etag)
    && (i < |completed| - 1 ==> |part.body| >= MIN_PART)
  }

  ghost predicate ListedAt(c: Catalog, upload: string, completed: seq<Completed>, parts: seq<Meta>, i: nat)
    requires i < |completed| && i < |parts|
  {
    Accepted(c, upload, completed, i) && parts[i] == c.slots[Part(upload, completed[i].number)]
  }

  /** `parts` are the first `k` listed parts, all accepted. */
  ghost predicate Listed(c: Catalog, upload: string, completed: seq<Completed>, parts: seq<Meta>, k: nat) {
    |parts| == k <= |completed| && forall i: nat :: i < k ==> ListedAt(c, upload, completed, parts, i)
  }

  lemma ListedSnoc(c: Catalog, upload: string, completed: seq<Completed>, parts: seq<Meta>, part: Meta)
    requires Listed(c, upload, completed, parts, |parts|) && |parts| < |completed|
    requires ListedAt(c, upload, completed, parts + [part], |parts|)
    ensures Listed(c, upload, completed, parts + [part], |parts| + 1)
  {
    hide EtagMatches;
    forall i: nat | i < |parts| ensures ListedAt(c, upload, completed, parts + [part], i) {
      assert ListedAt(c, upload, completed, parts, i);
    }
  }

  function PartError(c: Catalog, upload: string, completed: seq<Completed>, i: nat): Option<Error>
    requires i < |completed|
  {
    var number := completed[i].number;
    if number <= Previous(completed, i) then Some(InvalidPartOrder)
    else if number < 0 || Part(upload, number) !in c.slots || !EtagMatches(completed[i].etag, c.slots[Part(upload, number)].etag) then Some(InvalidPart)
    else if i < |completed| - 1 && |c.slots[Part(upload, number)].body| < MIN_PART then Some(EntityTooSmall)
    else None
  }

  /** The error of the first listed part that has one, among the first `k`. */
  function FirstPartError(c: Catalog, upload: string, completed: seq<Completed>, k: nat): Option<Error>
    requires k <= |completed|
  {
    if k == 0 then None
    else
      var earlier := FirstPartError(c, upload, completed, k - 1);
      if earlier.Some? then earlier else PartError(c, upload, completed, k - 1)
  }

  lemma {:induction false} FirstErrorStays(c: Catalog, upload: string, completed: seq<Completed>, i: nat, k: nat)
    requires i < k <= |completed| && FirstPartError(c, upload, completed, i).None?
    ensures PartError(c, upload, completed, i).Some? ==>
              FirstPartError(c, upload, completed, k) == PartError(c, upload, completed, i)
  {
    if i + 1 < k {
      FirstErrorStays(c, upload, completed, i, k - 1);
    }
  }

  function Joined(parts: seq<Meta>): Body {
    if parts == [] then "" else Joined(parts[..|parts| - 1]) + parts[|parts| - 1].body
  }

  function TotalSize(parts: seq<Meta>): nat {
    if parts == [] then 0 else TotalSize(parts[..|parts| - 1]) + |parts[|parts| - 1].body|
  }

  lemma CompletionOk(c: Catalog, upload: string, slot: Slot, body: Body, etag: string)
    requires CatalogOk(c) && slot.S3? && upload in c.uploads && c.uploads[upload].bucket == slot.bucket
    ensures Replaces(c, WithSlot(WithoutUpload(c, upload), slot, body, etag), slot, body)
    ensures forall f <- PartFiles(c, upload) :: !Refers(WithSlot(WithoutUpload(c, upload), slot, body, etag), f)
  {
    var without := WithoutUpload(c, upload);
    var next := WithSlot(without, slot, body, etag);
    UploadRemovalOk(c, upload);
    forall f | f in PartFiles(c, upload) ensures !Refers(next, f) {
      var p :| p in c.slots && p.Part? && p.upload == upload && c.slots[p].file == f;
      assert SlotOk(c, p, c.slots[p]);
      ReferencesAreOwn(next, p, c.slots[p].body);
    }
  }

  lemma {:induction false} NumbersAscend(c: Catalog, upload: string, completed: seq<Completed>, parts: seq<Meta>, k: nat)
    requires CatalogOk(c) && Listed(c, upload, completed, parts, |completed|) && 0 < k <= |completed|
    ensures k <= completed[k - 1].number <= 10_000
  {
    hide EtagMatches;
    assert ListedAt(c, upload, completed, parts, k - 1);
    var slot := Part(upload, completed[k - 1].number);
    assert SlotOk(c, slot, c.slots[slot]);
    if k > 1 {
      NumbersAscend(c, upload, completed, parts, k - 1);
    }
  }

  lemma {:induction false} SizesAdd(c: Catalog, upload: string, completed: seq<Completed>, parts: seq<Meta>, k: nat)
    requires Listed(c, upload, completed, parts, |completed|) && k <= |completed|
    ensures |Joined(parts[..k])| == TotalSize(parts[..k])
    ensures TotalSize(parts[..k]) >= MIN_PART * (if k < |completed| || k == 0 then k else k - 1)
  {
    hide EtagMatches;
    if k > 0 {
      SizesAdd(c, upload, completed, parts, k - 1);
      assert parts[..k][..k - 1] == parts[..k - 1];
      assert ListedAt(c, upload, completed, parts, k - 1);
    }
  }

  /** An accepted completion has at most 10000 parts and its body is the sum of their sizes,
      at least 5 MiB for every part but the last. */
  lemma CompletionSize(c: Catalog, upload: string, completed: seq<Completed>, parts: seq<Meta>)
    requires CatalogOk(c) && completed != [] && Listed(c, upload, completed, parts, |completed|)
    ensures |Joined(parts)| == TotalSize(parts) >= MIN_PART * (|parts| - 1)
    ensures |parts| <= 10_000
  {
    NumbersAscend(c, upload, completed, parts, |parts|);
    SizesAdd(c, upload, completed, parts, |parts|);
    assert parts[..|parts|] == parts;
  }

  /* ------------------------------ What a completion accepts ------------------------------ */

  /** The same letter in either case, or the same character. */
  predicate SameLetter(x: char, y: char) {
    x == y || ('a' <= x <= 'z' && y as int == x as int - 32) || ('A' <= x <= 'Z' && y as int == x as int + 32)
  }

  /** Between `a` and `b` the text has no quote at its ends, and nothing but quotes around. */
  ghost predicate QuotesAround(s: string, a: nat, b: nat) {
    && a <= b <= |s| && (a < b ==> s[a] != '"' && s[b - 1] != '"')
    && (forall i :: 0 <= i < a ==> s[i] == '"') && (forall i :: b <= i < |s| ==> s[i] == '"')
  }

  /** The stored ETag in any letter case, in any run of quotes. */
  ghost predicate Quoted(requested: string, stored: string) {
    exists a: nat, b: nat ::
      QuotesAround(requested, a, b) && b - a == |stored| && forall i :: 0 <= i < |stored| ==> SameLetter(requested[a + i], stored[i])
  }

  lemma {:induction false} TrimmedIs(s: string, a: nat, b: nat)
    requires QuotesAround(s, a, b)
    ensures TrimQuotes(s) == s[a..b]
  {
    if |s| > 0 && s[0] == '"' {
      TrimmedIs(s[1..], if a == 0 then 0 else a - 1, if b == 0 then 0 else b - 1);
    } else if |s| > 0 && s[|s| - 1] == '"' {
      assert s[..|s| - 1][a..b] == s[a..b];
      TrimmedIs(s[..|s| - 1], a, b);
    }
  }

  lemma {:induction false} TrimmedBounds(s: string) returns (a: nat, b: nat)
    ensures QuotesAround(s, a, b)
  {
    if |s| > 0 && s[0] == '"' {
      a, b := TrimmedBounds(s[1..]);
      a, b := a + 1, b + 1;
    } else if |s| > 0 && s[|s| - 1] == '"' {
      a, b := TrimmedBounds(s[..|s| - 1]);
    } else {
      a, b := 0, |s|;
    }
  }

  lemma LowerIsSameLetters(s: string, t: string)
    ensures Lower(s) == Lower(t) <==> |s| == |t| && forall i :: 0 <= i < |s| ==> SameLetter(s[i], t[i])
  {
    LowerAt(s);
    LowerAt(t);
    hide Lower;
    assert forall x, y :: SameLetter(x, y) <==> LowerChar(x) == LowerChar(y);
    if |s| == |t| && forall i :: 0 <= i < |s| ==> SameLetter(s[i], t[i]) {
      assert forall i :: 0 <= i < |s| ==> Lower(s)[i] == Lower(t)[i];
    } else if Lower(s) == Lower(t) {
      forall i | 0 <= i < |s| ensures SameLetter(s[i], t[i]) {
        assert Lower(s)[i] == Lower(t)[i];
      }
    }
  }

  /** A requested ETag is taken for the stored one exactly when it is that in quotes. */
  lemma MatchesWhenQuoted(requested: string, stored: string)
    ensures EtagMatches(requested, stored) <==> Quoted(requested, stored)
  {
    hide TrimQuotes, Lower, SameLetter;
    var a, b := TrimmedBounds(requested);
    TrimmedIs(requested, a, b);
    LowerIsSameLetters(requested[a..b], stored);
    if EtagMatches(requested, stored) {
      assert QuotesAround(requested, a, b);
      forall i | 0 <= i < |stored| ensures SameLetter(requested[a + i], stored[i]) {
        assert requested[a..b][i] == requested[a + i];
      }
    }
    if Quoted(requested, stored) {
      var a': nat, b': nat :| && QuotesAround(requested, a', b') && b' - a' == |stored|
                              && (forall i :: 0 <= i < |stored| ==> SameLetter(requested[a' + i], stored[i]));
      TrimmedIs(requested, a', b');
      LowerIsSameLetters(requested[a'..b'], stored);
    }
  }

  /** The listed number is above the one before it, and above 0. */
  predicate Ascends(completed: seq<Completed>, i: nat)
    requires i < |completed|
  {
    completed[i].number > 0 && (i > 0 ==> completed[i].number > completed[i - 1].number)
  }

  /** The part was uploaded, and is listed under its ETag. */
  ghost predicate Uploaded(c: Catalog, upload: string, listed: Completed) {
    listed.number >= 0 && Part(upload, listed.number) in c.slots && Quoted(listed.etag, c.slots[Part(upload, listed.number)].etag)
  }

  /** 5 MiB at least, unless it is the last one. */
  predicate Large(c: Catalog, upload: string, completed: seq<Completed>, i: nat)
    requires i < |completed|
  {
    i == |completed| - 1 || (completed[i].number >= 0 && Part(upload, completed[i].number) in c.slots
                             && |c.slots[Part(upload, completed[i].number)].body| >= 5_242_880)
  }

  ghost predicate Good(c: Catalog, upload: string, completed: seq<Completed>, i: nat)
    requires i < |completed|
  {
    Ascends(completed, i) && Uploaded(c, upload, completed[i]) && Large(c, upload, completed, i)
  }

  /** Why a part that is not good is refused. */
  ghost function Complaint(c: Catalog, upload: string, completed: seq<Completed>, i: nat): Error
    requires i < |completed|
  {
    if !Ascends(completed, i) then InvalidPartOrder
    else if !Uploaded(c, upload, completed[i]) then InvalidPart
    else EntityTooSmall
  }

  ghost predicate AllGood(c: Catalog, upload: string, completed: seq<Completed>, k: nat)
    requires k <= |completed|
  {
    forall i: nat :: i < k ==> Good(c, upload, completed, i)
  }

  /** Either all of the first `k` listed parts are good, or the first that is not decides the error. */
  lemma {:induction false} FirstBadDecides(c: Catalog, upload: string, completed: seq<Completed>, k: nat)
    requires k <= |completed|
    ensures FirstPartError(c, upload, completed, k).None? <==> AllGood(c, upload, completed, k)
    ensures forall i: nat :: i < k && AllGood(c, upload, completed, i) && !Good(c, upload, completed, i) ==>
              FirstPartError(c, upload, completed, k) == Some(Complaint(c, upload, completed, i))
    ensures FirstPartError(c, upload, completed, k) in {None, Some(InvalidPartOrder), Some(InvalidPart), Some(EntityTooSmall)}
  {
    if k > 0 {
      hide EtagMatches, Quoted;
      FirstBadDecides(c, upload, completed, k - 1);
      var listed := completed[k - 1];
      if listed.number >= 0 && Part(upload, listed.number) in c.slots {
        MatchesWhenQuoted(listed.etag, c.slots[Part(upload, listed.number)].etag);
      }
      assert AllGood(c, upload, completed, k) <==> AllGood(c, upload, completed, k - 1) && Good(c, upload, completed, k - 1);
    }
  }

  /** `body` consists of the bodies of the parts, one behind the other. */
  ghost predicate Concatenates(body: Body, parts: seq<Meta>) {
    if parts == [] then body == ""
    else parts[0].body <= body && Concatenates(body[|parts[0].body|..], parts[1..])
  }

  lemma JoinedSnoc(parts: seq<Meta>, last: Meta)
    ensures Joined(parts + [last]) == Joined(parts) + last.body
  {
    assert (parts + [last])[..|parts|] == parts;
  }

  lemma Associate<T>(a: seq<T>, b: seq<T>, c: seq<T>)
    ensures a + b + c == a + (b + c)
  {
  }

  lemma {:induction false} JoinedCons(first: Meta, rest: seq<Meta>)
    ensures Joined([first] + rest) == first.body + Joined(rest)
  {
    if rest == [] {
      JoinedSnoc([], first);
      assert [first] + rest == [] + [first];
    } else {
      hide Joined;
      var before, last := rest[..|rest| - 1], rest[|rest| - 1];
      assert rest == before + [last];
      JoinedCons(first, before);
      JoinedSnoc(before, last);
      JoinedSnoc([first] + before, last);
      Associate([first], before, [last]);
      Associate(first.body, Joined(before), last.body);
    }
  }

  lemma {:induction false} JoinedConcatenates(parts: seq<Meta>)
    ensures Concatenates(Joined(parts), parts)
  {
    if parts != [] {
      assert parts == [parts[0]] + parts[1..];
      JoinedCons(parts[0], parts[1..]);
      JoinedConcatenates(parts[1..]);
      hide Joined;
      assert Joined(parts)[|parts[0].body|..] == Joined(parts[1..]);
    }
  }

  /** The slot holds the body under its ETag; every other slot that `keeps` admits is as before, and
      the others are gone. */
  ghost predicate Holding(c: Catalog, c': Catalog, slot: Slot, body: Body, etag: string, gone: set<Slot>) {
    && c'.buckets == c.buckets && c'.gcsBuckets == c.gcsBuckets
    && slot in c'.slots && c'.slots[slot].body == body && c'.slots[slot].etag == etag
    && (forall s <- c.slots :: s != slot && s !in gone ==> s in c'.slots && c'.slots[s] == c.slots[s])
    && (forall s <- c'.slots :: s != slot ==> s in c.slots && s !in gone)
  }

  ghost function PartsOf(c: Catalog, upload: string): set<Slot> {
    set s | s in c.slots && s.Part? && s.upload == upload
  }

  /** An accepted completion: `parts` are the listed ones, the slot holds them one behind the other, and
      the upload is gone with its parts. */
  ghost predicate Completes(
    c: Catalog, slot: Slot, upload: string, completed: seq<Completed>, parts: seq<Meta>, etag: string, c': Catalog)
  {
    && |parts| == |completed|
    && (forall i: nat :: i < |completed| ==>
          Good(c, upload, completed, i) && parts[i] == c.slots[Part(upload, completed[i].number)])
    && slot in c'.slots && Concatenates(c'.slots[slot].body, parts)
    && Holding(c, c', slot, c'.slots[slot].body, etag, PartsOf(c, upload)) && c'.uploads == c.uploads - {upload}
  }

  lemma CompletionCompletes(c: Catalog, slot: Slot, upload: string, completed: seq<Completed>, parts: seq<Meta>, etag: string)
    requires slot.S3? && Listed(c, upload, completed, parts, |completed|)
    ensures Completes(c, slot, upload, completed, parts, etag, WithSlot(WithoutUpload(c, upload), slot, Joined(parts), etag))
  {
    hide EtagMatches, Quoted, Joined, Concatenates;
    forall i: nat | i < |completed|
      ensures Good(c, upload, completed, i) && parts[i] == c.slots[Part(upload, completed[i].number)]
    {
      assert ListedAt(c, upload, completed, parts, i);
      MatchesWhenQuoted(completed[i].etag, c.slots[Part(upload, completed[i].number)].etag);
    }
    JoinedConcatenates(parts);
  }
}
