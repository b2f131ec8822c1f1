/**
 Saving and reading named snapshots (`SaveSnapshot`, `readSnapshot`, `materializeLoadedSnapshot`,
 internal/state/snapshot.go).
 */
module Snapshots {
  import opened Common
  import opened Objects
  import opened ObjectService
  import opened Reopen
  import Restore = SnapshotRestore

  /** Size and SHA-256 of a file; an injective hash is the content itself. */
  datatype Entry = Entry(name: FileName, size: nat, sha: Body)

  /** The manifest but for its entries: the checked fields, what it records of `state.json`, and the
      length of the rest of its encoding. */
  datatype Header = Header(
    version: string, name: string, stateName: string, created: bool, stateSize: nat, stateSha: State, bytes: nat)

  /** A snapshot directory; `stateSize` is the length of its `state.json`. */
  datatype Snapshot = Snapshot(
    header: Header, state: State, stateSize: nat, files: map<FileName, Body>, manifest: seq<Entry>, sizeBytes: nat)

  const VERSION := "fcp.snapshot/v1"
  const STATE_FILE := "state.json"

  const MANIFEST_LIMIT := 0x10_0000
  const STATE_LIMIT := 0x400_0000
  const FILE_LIMIT := 0x100_0000_0000

  predicate IsAlphanumeric(c: char) {
    'a' <= c <= 'z' || 'A' <= c <= 'Z' || '0' <= c <= '9'
  }

  predicate ValidName(name: string) {
    && 1 <= |name| <= 64
    && forall i :: 0 <= i < |name| ==> IsAlphanumeric(name[i]) || (i > 0 && (name[i] == '-' || name[i] == '_' || name[i] == '.'))
  }

  /** An entry in the indented JSON of the manifest: 194 characters around the digits of its size,
      names and checksums being 64 hex digits. */
  function EntryBytes(e: Entry): nat {
    194 + |Itoa(e.size)|
  }

  function EntriesBytes(manifest: seq<Entry>): nat {
    if manifest == [] then 0 else EntriesBytes(manifest[..|manifest| - 1]) + EntryBytes(manifest[|manifest| - 1])
  }

  function ManifestBytes(s: Snapshot): nat {
    s.header.bytes + EntriesBytes(s.manifest)
  }

  function TotalSize(manifest: seq<Entry>): nat {
    if manifest == [] then 0 else TotalSize(manifest[..|manifest| - 1]) + manifest[|manifest| - 1].size
  }

  function Names(manifest: seq<Entry>): set<FileName> {
    set e | e in manifest :: e.name
  }

  predicate Distinct(manifest: seq<Entry>) {
    forall i, j :: 0 <= i < j < |manifest| ==> manifest[i].name != manifest[j].name
  }

  lemma DistinctSnoc(manifest: seq<Entry>, e: Entry)
    ensures Distinct(manifest + [e]) <==> Distinct(manifest) && forall i :: 0 <= i < |manifest| ==> manifest[i].name != e.name
  {
    var longer := manifest + [e];
    assert longer[|manifest|] == e && forall i :: 0 <= i < |manifest| ==> longer[i] == manifest[i];
  }

  /** One more entry. */
  lemma Snoc(manifest: seq<Entry>, e: Entry)
    ensures Names(manifest + [e]) == Names(manifest) + {e.name}
    ensures TotalSize(manifest + [e]) == TotalSize(manifest) + e.size
    ensures Distinct(manifest + [e]) <==> Distinct(manifest) && e.name !in Names(manifest)
  {
    DistinctSnoc(manifest, e);
    assert (manifest + [e])[..|manifest|] == manifest;
    assert e.name in Names(manifest) <==> exists i :: 0 <= i < |manifest| && manifest[i].name == e.name by {
      hide Distinct, TotalSize;
      assert forall i :: 0 <= i < |manifest| ==> manifest[i] in manifest;
    }
  }

  ghost predicate Describes(e: Entry, objects: map<FileName, Body>) {
    e.name in objects && e.size == |objects[e.name]| && e.sha == objects[e.name]
  }

  /** What `SaveSnapshot` writes: the state, a copy of every referenced file, and one entry for each. */
  ghost predicate SavedAs(s: Snapshot, name: string, c: State, objects: map<FileName, Body>) {
    && s.header == Header(VERSION, name, STATE_FILE, true, s.stateSize, c, s.header.bytes) && s.state == c
    && s.files == (map f | f in objects && f in AllFiles(c.catalog) :: objects[f])
    && Names(s.manifest) == AllFiles(c.catalog) && Distinct(s.manifest)
    && (forall e <- s.manifest :: Describes(e, objects))
    && s.sizeBytes == s.stateSize + TotalSize(s.manifest)
  }

  /** Copies the named files one by one; fails on the first that is missing. */
  method CopyFiles(refs: set<FileName>, objects: map<FileName, Body>)
    returns (ok: bool, files: map<FileName, Body>, manifest: seq<Entry>)
    ensures ok <==> refs <= objects.Keys
    ensures ok ==> Copied(files, manifest, refs, objects)
  {
    var todo := refs;
    files, manifest := map[], [];
    hide Copied;
    NothingCopied(objects);
    assert refs - todo == {};
    while todo != {}
      invariant todo <= refs && refs - todo <= objects.Keys && Copied(files, manifest, refs - todo, objects)
      decreases |todo|
    {
      var f :| f in todo;
      if f !in objects {
        return false, files, manifest;
      }
      CopyOne(files, manifest, refs - todo, objects, f);
      assert refs - todo + {f} == refs - (todo - {f});
      files, manifest := files[f := objects[f]], manifest + [Entry(f, |objects[f]|, objects[f])];
      todo := todo - {f};
    }
    assert refs - todo == refs;
    ok := true;
  }

  /** `files` are the copies of `done`, and `manifest` has one entry for each. */
  ghost predicate Copied(files: map<FileName, Body>, manifest: seq<Entry>, done: set<FileName>, objects: map<FileName, Body>) {
    && files.Keys == done <= objects.Keys && (forall f <- files :: files[f] == objects[f])
    && Names(manifest) == done && Distinct(manifest) && forall e <- manifest :: Describes(e, objects)
  }

  lemma NothingCopied(objects: map<FileName, Body>)
    ensures Copied(map[], [], {}, objects)
  {
    assert Names([]) == {};
  }

  lemma CopyOne(files: map<FileName, Body>, manifest: seq<Entry>, done: set<FileName>, objects: map<FileName, Body>, f: FileName)
    requires Copied(files, manifest, done, objects) && f in objects && f !in done
    ensures Copied(files[f := objects[f]], manifest + [Entry(f, |objects[f]|, objects[f])], done + {f}, objects)
  {
    hide Names, Distinct;
    Snoc(manifest, Entry(f, |objects[f]|, objects[f]));
  }

  /** What the temporary directory holds when it is renamed into place; nothing if a file is missing. */
  method Assemble(name: string, c: State, stateSize: nat, headerBytes: nat, objects: map<FileName, Body>) returns (r: Option<Snapshot>)
    ensures r.Some? <==> AllFiles(c.catalog) <= objects.Keys
    ensures r.Some? ==> SavedAs(r.value, name, c, objects) && r.value.stateSize == stateSize && r.value.header.bytes == headerBytes
  {
    var ok, files, manifest := CopyFiles(AllFiles(c.catalog), objects);
    if !ok {
      return None;
    }
    var size, i := stateSize, 0;
    while i < |manifest|
      invariant i <= |manifest| && size == stateSize + TotalSize(manifest[..i])
    {
      assert manifest[..i + 1][..i] == manifest[..i];
      size, i := size + manifest[i].size, i + 1;
    }
    assert manifest[..i] == manifest;
    assert files == map f | f in objects && f in AllFiles(c.catalog) :: objects[f];
    r := Some(Snapshot(Header(VERSION, name, STATE_FILE, true, stateSize, c, headerBytes), c, stateSize, files, manifest, size));
  }

  /** `verifySnapshotFile`. */
  predicate Verified(s: Snapshot, e: Entry) {
    && e.name in s.files && |s.files[e.name]| == e.size <= FILE_LIMIT && s.files[e.name] == e.sha
  }

  /** What `readSnapshotManifest` checks. */
  predicate HeaderOk(s: Snapshot, name: string) {
    && ManifestBytes(s) <= MANIFEST_LIMIT
    && s.header.version == VERSION && s.header.name == name && s.header.stateName == STATE_FILE && s.header.created
  }

  predicate StateOk(s: Snapshot) {
    s.stateSize == s.header.stateSize <= STATE_LIMIT && s.state == s.header.stateSha
  }

  /** What `readSnapshot` checks. */
  ghost predicate Accepts(s: Snapshot, name: string) {
    && HeaderOk(s, name) && StateOk(s)
    && |s.manifest| == |AllFiles(s.state.catalog)| && Distinct(s.manifest)
    && (forall e <- s.manifest :: e.name in AllFiles(s.state.catalog) && Verified(s, e))
    && s.sizeBytes == s.stateSize + TotalSize(s.manifest)
  }

  /** An accepted snapshot lists exactly the referenced files, without repetition. */
  method CheckSnapshot(s: Snapshot, name: string) returns (ok: bool)
    ensures ok <==> Accepts(s, name)
    ensures ok ==> Names(s.manifest) == AllFiles(s.state.catalog)
  {
    hide HeaderOk, StateOk, Verified, TotalSize, Names;
    var expected := AllFiles(s.state.catalog);
    if !HeaderOk(s, name) || !StateOk(s) || |expected| != |s.manifest| {
      return false;
    }
    assert s.manifest[..0] == [];
    NothingListed();
    var seen: set<FileName>, size := {}, s.stateSize;
    var i := 0;
    while i < |s.manifest|
      invariant i <= |s.manifest| && seen == Names(s.manifest[..i]) && Distinct(s.manifest[..i])
      invariant forall e <- s.manifest[..i] :: e.name in expected && Verified(s, e)
      invariant size == s.stateSize + TotalSize(s.manifest[..i])
    {
      var e := s.manifest[i];
      assert e in s.manifest && s.manifest[..i + 1] == s.manifest[..i] + [e];
      Snoc(s.manifest[..i], e);
      if e.name in seen {
        return false;
      }
      if e.name !in expected || !Verified(s, e) {
        return false;
      }
      seen, size, i := seen + {e.name}, size + e.size, i + 1;
    }
    assert s.manifest[..i] == s.manifest;
    ok := s.sizeBytes == size;
    DistinctCover(s.manifest, expected);
  }

  lemma NothingListed()
    ensures Names([]) == {} && TotalSize([]) == 0
  {
  }

  lemma {:induction false} DistinctCount(manifest: seq<Entry>)
    requires Distinct(manifest)
    ensures |Names(manifest)| == |manifest|
  {
    if manifest != [] {
      var n := |manifest| - 1;
      var init := manifest[..n];
      DistinctCount(init);
      assert manifest == init + [manifest[n]];
      Snoc(init, manifest[n]);
    }
  }

  lemma DistinctCover(manifest: seq<Entry>, expected: set<FileName>)
    requires Distinct(manifest) && |manifest| == |expected|
    requires forall e <- manifest :: e.name in expected
    ensures Names(manifest) == expected
  {
    DistinctCount(manifest);
    SubsetOfSameSize(Names(manifest), expected);
  }

  lemma SubsetOfSameSize(a: set<FileName>, b: set<FileName>)
    requires a <= b && |a| == |b|
    ensures a == b
  {
    if a != b {
      var x :| x in b && x !in a;
      assert a <= b - {x};
      Cardinality(a, b - {x});
    }
  }

  lemma {:induction false} Cardinality(a: set<FileName>, b: set<FileName>)
    requires a <= b
    ensures |a| <= |b|
  {
    if x :| x in a {
      Cardinality(a - {x}, b - {x});
    }
  }

  ghost predicate WithinLimits(s: Snapshot) {
    s.stateSize <= STATE_LIMIT && ManifestBytes(s) <= MANIFEST_LIMIT && forall f <- s.files :: |s.files[f]| <= FILE_LIMIT
  }

  /** The loaded state as `saveLocked` encodes it: the same text without the newline at its end. */
  function Canonical(s: Snapshot): StateFile {
    StateFile(s.state, if s.stateSize > 0 then s.stateSize - 1 else 0)
  }

  /** A saved snapshot holds exactly the saved bodies, and is a pair as a restore needs it. */
  lemma SavedIsExact(s: Snapshot, name: string, c: State, objects: map<FileName, Body>)
    requires SavedAs(s, name, c, objects) && AllHold(c.catalog, objects)
    ensures Exact(c.catalog, s.files) && Restore.Paired(Some(Canonical(s)), s.files) && AllFiles(c.catalog) <= objects.Keys
  {
    hide Distinct, TotalSize, Names;
    forall slot | slot in c.catalog.slots ensures Holds(s.files, c.catalog.slots[slot]) {
      assert Holds(objects, c.catalog.slots[slot]) && c.catalog.slots[slot].file in AllFiles(c.catalog);
    }
    forall f | f in AllFiles(c.catalog) ensures f in objects {
      var slot :| slot in c.catalog.slots && c.catalog.slots[slot].file == f;
      assert Holds(objects, c.catalog.slots[slot]);
    }
  }

  /** The reader accepts what a store with all its referenced files saved exactly when the state, the
      manifest and every file are within its limits. */
  lemma SavedIsAcceptedIff(s: Snapshot, name: string, c: State, objects: map<FileName, Body>)
    requires SavedAs(s, name, c, objects) && AllHold(c.catalog, objects)
    ensures Accepts(s, name) <==> WithinLimits(s)
  {
    DistinctCount(s.manifest);
    hide Distinct, TotalSize, ManifestBytes, AllHold, AllFiles;
    forall e | e in s.manifest
      ensures e.name in AllFiles(c.catalog) && e.name in s.files && (Verified(s, e) <==> |s.files[e.name]| <= FILE_LIMIT)
    {
      assert e.name in Names(s.manifest) && Describes(e, objects);
    }
    assert (forall e <- s.manifest :: Verified(s, e)) <==> forall f <- s.files :: |s.files[f]| <= FILE_LIMIT by {
      forall f | f in s.files ensures exists e <- s.manifest :: e.name == f { assert f in Names(s.manifest); }
    }
  }

  lemma {:induction false} EntriesAreLong(manifest: seq<Entry>)
    ensures EntriesBytes(manifest) >= 195 * |manifest|
  {
    if manifest != [] { EntriesAreLong(manifest[..|manifest| - 1]); }
  }

  /** `SaveSnapshot` does not check these limits: whoever saves 5378 object files or more cannot load
      the snapshot again. */
  lemma ManyObjectsCannotBeLoaded(s: Snapshot, name: string, c: State, objects: map<FileName, Body>)
    requires SavedAs(s, name, c, objects) && |AllFiles(c.catalog)| >= 5378
    ensures !Accepts(s, name)
  {
    DistinctCount(s.manifest);
    EntriesAreLong(s.manifest);
    hide Distinct, TotalSize, Names, Verified, EntriesBytes;
  }

  /** `materializeLoadedSnapshot`: the files of the manifest, one by one. */
  method Materialize(s: Snapshot) returns (d: Disk)
    requires forall e <- s.manifest :: e.name in s.files
    ensures d.state == Some(StateFile(s.state, s.stateSize)) && d.objects == map f | f in s.files && f in Names(s.manifest) :: s.files[f]
  {
    var objects: map<FileName, Body>, i := map[], 0;
    while i < |s.manifest|
      invariant i <= |s.manifest|
      invariant forall f :: f in objects <==> exists j :: 0 <= j < i && s.manifest[j].name == f
      invariant forall f <- objects :: f in s.files && objects[f] == s.files[f]
    {
      var e := s.manifest[i];
      objects, i := objects[e.name := s.files[e.name]], i + 1;
    }
    forall f ensures f in objects <==> f in Names(s.manifest) {
      if f in Names(s.manifest) {
        var e :| e in s.manifest && e.name == f;
        var j :| 0 <= j < |s.manifest| && s.manifest[j] == e;
      }
    }
    d := Disk(Some(StateFile(s.state, s.stateSize)), objects);
  }

  /* ------------------------------ The snapshots directory ------------------------------ */

  datatype Error = InvalidName | AlreadyExists | NotFound | Corrupt

  class SnapshotRoot {
    var snapshots: map<string, Snapshot>

    constructor ()
      ensures snapshots == map[]
    {
      snapshots := map[];
    }

    /** A snapshot is never overwritten, and every valid store can be saved. */
    method Save(name: string, store: ObjectStore, stateSize: nat, headerBytes: nat) returns (error: Option<Error>)
      requires store.Valid()
      modifies this
      ensures error == if !ValidName(name) then Some(InvalidName) else if name in old(snapshots) then Some(AlreadyExists) else None
      ensures error.Some? ==> snapshots == old(snapshots)
      ensures error.None? ==>
                && name in snapshots && snapshots - {name} == old(snapshots) - {name}
                && SavedAs(snapshots[name], name, State(store.live, store.rest), store.disk.objects)
                && snapshots[name].stateSize == stateSize && snapshots[name].header.bytes == headerBytes
    {
      if !ValidName(name) {
        return Some(InvalidName);
      }
      if name in snapshots {
        return Some(AlreadyExists);
      }
      assert AllFiles(store.live) <= store.disk.objects.Keys by {
        forall f | f in AllFiles(store.live) ensures f in store.disk.objects {
          var slot :| slot in store.live.slots && store.live.slots[slot].file == f;
          assert Holds(store.disk.objects, store.live.slots[slot]);
        }
      }
      hide SavedAs;
      var s := Assemble(name, State(store.live, store.rest), stateSize, headerBytes, store.disk.objects);
      snapshots := snapshots[name := s.value];
      error := None;
    }

    method Read(name: string) returns (r: Result<Snapshot, Error>)
      ensures r == if !ValidName(name) then Err(InvalidName) else if name !in snapshots then Err(NotFound)
                   else if Accepts(snapshots[name], name) then Ok(snapshots[name]) else Err(Corrupt)
      ensures r.Ok? ==> Names(r.value.manifest) == AllFiles(r.value.state.catalog)
    {
      if !ValidName(name) {
        return Err(InvalidName);
      }
      if name !in snapshots {
        return Err(NotFound);
      }
      var ok := CheckSnapshot(snapshots[name], name);
      r := if ok then Ok(snapshots[name]) else Err(Corrupt);
    }

    method Delete(name: string) returns (error: Option<Error>)
      modifies this
      ensures error == if !ValidName(name) then Some(InvalidName) else if name !in old(snapshots) then Some(NotFound) else None
      ensures snapshots == if error.None? then old(snapshots) - {name} else old(snapshots)
    {
      if !ValidName(name) {
        return Some(InvalidName);
      }
      if name !in snapshots {
        return Some(NotFound);
      }
      snapshots := snapshots - {name};
      error := None;
    }
  }

  /** The snapshot round trip: save a store, let it serve any requests, then read the snapshot,
      materialize it and open the directory.  That succeeds exactly within the limits, and then gives
      the state as it was saved, objects and everything else, with exactly the files. */
  method SaveOperateOpen(root: SnapshotRoot, store: ObjectStore, name: string, stateSize: nat, headerBytes: nat, ops: seq<ObjectOp>)
    returns (found: Option<State>, d: Disk)
    requires store.Valid() && ValidName(name) && name !in root.snapshots && forall op <- ops :: WellNamed(op)
    modifies root, store
    ensures name in root.snapshots && (found.Some? <==> WithinLimits(root.snapshots[name]))
    ensures found.Some? ==>
              && found.value == old(State(store.live, store.rest)) && d.state == Some(StateFile(found.value, stateSize))
              && Exact(found.value.catalog, d.objects)
  {
    ghost var c, objects := State(store.live, store.rest), store.disk.objects;
    assert AllHold(c.catalog, objects);
    hide SavedAs, AllHold, Exact;
    var error := root.Save(name, store, stateSize, headerBytes);
    OperateAll(store, ops);
    ghost var s := root.snapshots[name];
    SavedIsAcceptedIff(s, name, c, objects);
    SavedIsExact(s, name, c, objects);
    var r := root.Read(name);
    if r.Err? {
      return None, Disk(None, map[]);
    }
    MaterializedIsExact(s, name, c, objects);
    d := Materialize(r.value);
    var ok, live, after;
    ghost var steps;
    ok, live, after, steps := Open(d);
    found, d := Some(live), after;
  }

  lemma MaterializedIsExact(s: Snapshot, name: string, c: State, objects: map<FileName, Body>)
    requires SavedAs(s, name, c, objects) && AllHold(c.catalog, objects)
    ensures s.state == c && (forall e <- s.manifest :: e.name in s.files)
    ensures s.files == map f | f in s.files && f in Names(s.manifest) :: s.files[f]
    ensures Safe(Disk(Some(StateFile(c, s.stateSize)), s.files))
  {
    SavedIsExact(s, name, c, objects);
    hide Distinct, TotalSize;
    forall e | e in s.manifest ensures e.name in s.files { assert e.name in Names(s.manifest); }
    assert forall f <- s.files :: f in Names(s.manifest);
  }

  /** Loading the snapshot into a data directory instead: the restore protocol gets the pair it needs
      and ends with the saved state and its files, whatever the directory held before. */
  method SaveOperateLoad(root: SnapshotRoot, store: ObjectStore, name: string, stateSize: nat, headerBytes: nat, ops: seq<ObjectOp>,
                         directory: Restore.DataDirectory, stage: nat, backup: nat)
    returns (ok: bool)
    requires store.Valid() && ValidName(name) && name !in root.snapshots && forall op <- ops :: WellNamed(op)
    requires directory.Valid() && directory.Now().phase.Idle? && stage !in directory.disk.stages && backup !in directory.disk.backups
    modifies root, store, directory
    ensures name in root.snapshots && (ok <==> WithinLimits(root.snapshots[name]))
    ensures directory.Valid() && directory.Now().phase.Idle?
    ensures ok ==>
              && directory.disk.state == Some(Canonical(root.snapshots[name])) && directory.disk.state.value.state == old(State(store.live, store.rest))
              && directory.disk.objects.Some? && Exact(old(store.live), directory.disk.objects.value)
    ensures !ok ==> directory.disk == old(directory.disk)
  {
    ghost var c, objects := State(store.live, store.rest), store.disk.objects;
    assert AllHold(c.catalog, objects);
    hide SavedAs, AllHold, Exact;
    var error := root.Save(name, store, stateSize, headerBytes);
    OperateAll(store, ops);
    ghost var s := root.snapshots[name];
    SavedIsAcceptedIff(s, name, c, objects);
    SavedIsExact(s, name, c, objects);
    var r := root.Read(name);
    if r.Err? {
      return false;
    }
    MaterializedIsExact(s, name, c, objects);
    var d := Materialize(r.value);
    ok := directory.LoadSnapshot(Canonical(r.value), d.objects, stage, backup);
  }

  /* ------------------------------ A store that cannot be loaded again ------------------------------ */

  lemma FilesWithSlot(c: Catalog, slot: Slot, body: Body, etag: string)
    requires slot !in c.slots
    ensures AllFiles(WithSlot(c, slot, body, etag)) == AllFiles(c) + {FileFor(slot, body)}
  {
    hide FileFor;
    var f, next := FileFor(slot, body), WithSlot(c, slot, body, etag);
    forall g ensures g in AllFiles(next) <==> g in AllFiles(c) + {f} {
      if s :| s in c.slots && c.slots[s].file == g { assert s in next.slots && next.slots[s] == c.slots[s]; }
      if g == f { assert slot in next.slots && next.slots[slot].file == f; }
    }
  }

  predicate Numbered(s: Slot, i: nat) {
    exists j: nat | j < i :: s == S3("b", Itoa(j))
  }

  /** The objects of bucket "b" with the keys "0" to `i` - 1, each with a file of its own. */
  ghost predicate Filled(c: Catalog, i: nat) {
    "b" in c.buckets && |AllFiles(c)| == i && forall s <- c.slots :: Numbered(s, i)
  }

  lemma NextIsFree(c: Catalog, i: nat)
    requires Filled(c, i)
    ensures S3("b", Itoa(i)) !in c.slots
  {
    hide Itoa, AllFiles;
    var slot := S3("b", Itoa(i));
    if slot in c.slots {
      assert Numbered(slot, i);
      var j: nat :| j < i && slot == S3("b", Itoa(j));
      ItoaInjective(i, j);
    }
  }

  lemma StillNumbered(s: Slot, i: nat)
    ensures Numbered(s, i) ==> Numbered(s, i + 1)
    ensures Numbered(S3("b", Itoa(i)), i + 1)
  {
    hide Itoa;
    if Numbered(s, i) {
      var j: nat :| j < i && s == S3("b", Itoa(j));
      assert j < i + 1;
    }
  }

  lemma FillOne(c: Catalog, i: nat)
    requires CatalogOk(c) && Filled(c, i)
    ensures Filled(WithSlot(c, S3("b", Itoa(i)), "x", ""), i + 1)
  {
    var slot := S3("b", Itoa(i));
    NextIsFree(c, i);
    assert NulFree("b");
    ReferencesAreOwn(c, slot, "x");
    hide Itoa, FileFor, CatalogOk, Numbered;
    FilesWithSlot(c, slot, "x", "");
    assert FileFor(slot, "x") !in AllFiles(c);
    hide AllFiles;
    var next := WithSlot(c, slot, "x", "");
    forall s | s in next.slots ensures Numbered(s, i + 1) {
      StillNumbered(s, i);
    }
  }

  /** A store with this many objects. */
  method Fill(count: nat) returns (store: ObjectStore)
    ensures fresh(store) && store.Valid() && |AllFiles(store.live)| == count
  {
    store := new ObjectStore();
    var error := store.CreateBucket("b", Commits("", 0));
    assert AllFiles(store.live) == {};
    assert Filled(store.live, 0);
    var i := 0;
    while i < count
      invariant i <= count && store.Valid() && fresh(store) && Filled(store.live, i)
    {
      assert "b" in store.live.buckets;
      hide Filled, Itoa, AllFiles;
      FillOne(store.live, i);
      error := store.PutObject("b", Itoa(i), "x", "", 0, Io(true, true, Commits("", 0)));
      i := i + 1;
    }
  }

  /** A run that saves 5378 objects under a name that it cannot read any more. */
  method SaveTooMany() returns (root: SnapshotRoot, store: ObjectStore, r: Result<Snapshot, Error>)
    ensures fresh(store) && store.Valid() && |AllFiles(store.live)| == 5378
    ensures fresh(root) && "s" in root.snapshots && SavedAs(root.snapshots["s"], "s", State(store.live, store.rest), store.disk.objects)
    ensures r == Err(Corrupt)
  {
    hide SavedAs, AllFiles;
    store := Fill(5378);
    root := new SnapshotRoot();
    assert ValidName("s");
    var error := root.Save("s", store, 0, 0);
    ManyObjectsCannotBeLoaded(root.snapshots["s"], "s", State(store.live, store.rest), store.disk.objects);
    r := root.Read("s");
  }
}
