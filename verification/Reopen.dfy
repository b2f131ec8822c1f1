/**
 Opening a data directory (`OpenWithOptions`, `validateAndCleanupObjectState`).
 */
module Reopen {
  import opened Common
  import opened Objects
  import opened ObjectService

  /** The object directory holds exactly the referenced files. */
  ghost predicate Exact(c: Catalog, objects: map<FileName, Body>) {
    objects.Keys == AllFiles(c) && forall s <- c.slots :: Holds(objects, c.slots[s])
  }

  ghost predicate AllHold(c: Catalog, objects: map<FileName, Body>) {
    forall s <- c.slots :: Holds(objects, c.slots[s])
  }

  /** Each directory is the one before without one file that nothing references. */
  ghost predicate Cleaning(c: Catalog, steps: seq<map<FileName, Body>>) {
    forall i :: 0 < i < |steps| ==> RemovesOne(c, steps[i - 1], steps[i])
  }

  ghost predicate RemovesOne(c: Catalog, before: map<FileName, Body>, after: map<FileName, Body>) {
    exists f <- before :: f !in AllFiles(c) && after == before - {f}
  }

  lemma CleaningKeeps(c: Catalog, objects: map<FileName, Body>, f: FileName)
    requires AllHold(c, objects) && f !in AllFiles(c)
    ensures AllHold(c, objects - {f})
  {
    forall s | s in c.slots ensures Holds(objects - {f}, c.slots[s]) {
      assert Holds(objects, c.slots[s]) && c.slots[s].file in AllFiles(c);
    }
  }

  /** Checks every reference first; only then removes what is not referenced.  `steps` are the
      directories after each removal, any of which a crash may leave. */
  method ValidateAndCleanup(c: Catalog, objects: map<FileName, Body>)
    returns (ok: bool, cleaned: map<FileName, Body>, ghost steps: seq<map<FileName, Body>>)
    ensures ok <==> AllHold(c, objects)
    ensures !ok ==> cleaned == objects
    ensures ok ==> Exact(c, cleaned) && cleaned == map f | f in objects && f in AllFiles(c) :: objects[f]
    ensures |steps| > 0 && steps[0] == objects && steps[|steps| - 1] == cleaned && Cleaning(c, steps)
    ensures ok ==> forall i :: 0 <= i < |steps| ==> AllHold(c, steps[i])
  {
    var referenced: set<FileName>, todo := {}, c.slots.Keys;
    cleaned, steps := objects, [objects];
    while todo != {}
      invariant todo <= c.slots.Keys
      invariant referenced == set s | s in c.slots.Keys - todo :: c.slots[s].file
      invariant forall s <- c.slots.Keys - todo :: Holds(objects, c.slots[s])
      decreases |todo|
    {
      var s :| s in todo;
      if !Holds(objects, c.slots[s]) {
        return false, objects, [objects];
      }
      todo := todo - {s};
      referenced := referenced + {c.slots[s].file};
    }
    assert referenced == AllFiles(c) && AllHold(c, objects);
    cleaned, steps := RemoveUnreferenced(c, referenced, objects);
    ok := true;
    CleanedIsExact(c, objects, cleaned);
  }

  lemma CleanedIsExact(c: Catalog, objects: map<FileName, Body>, cleaned: map<FileName, Body>)
    requires AllHold(c, objects) && cleaned.Keys == objects.Keys * AllFiles(c) && forall f <- cleaned :: cleaned[f] == objects[f]
    ensures Exact(c, cleaned) && cleaned == map f | f in objects && f in AllFiles(c) :: objects[f]
  {
    forall s | s in c.slots ensures Holds(cleaned, c.slots[s]) {
      assert Holds(objects, c.slots[s]) && c.slots[s].file in AllFiles(c);
    }
    forall f | f in AllFiles(c) ensures f in cleaned {
      var s :| s in c.slots && c.slots[s].file == f;
      assert Holds(cleaned, c.slots[s]);
    }
  }

  /** The loop over the directory entries. */
  method RemoveUnreferenced(c: Catalog, referenced: set<FileName>, objects: map<FileName, Body>)
    returns (cleaned: map<FileName, Body>, ghost steps: seq<map<FileName, Body>>)
    requires referenced == AllFiles(c) && AllHold(c, objects)
    ensures cleaned.Keys == objects.Keys * referenced && forall f <- cleaned :: cleaned[f] == objects[f]
    ensures |steps| > 0 && steps[0] == objects && steps[|steps| - 1] == cleaned && Cleaning(c, steps)
    ensures forall i :: 0 <= i < |steps| ==> AllHold(c, steps[i])
  {
    hide AllHold, AllFiles;
    cleaned, steps := objects, [objects];
    var entries := objects.Keys;
    while entries != {}
      invariant entries <= objects.Keys && cleaned.Keys <= objects.Keys
      invariant forall f <- cleaned :: cleaned[f] == objects[f]
      invariant forall f <- objects :: f in cleaned <==> f in entries || f in referenced
      invariant |steps| > 0 && steps[0] == objects && steps[|steps| - 1] == cleaned && Cleaning(c, steps)
      invariant forall i :: 0 <= i < |steps| ==> AllHold(c, steps[i])
      decreases |entries|
    {
      var f :| f in entries;
      entries := entries - {f};
      if f !in referenced {
        CleaningKeeps(c, cleaned, f);
        assert Cleaning(c, steps + [cleaned - {f}]);
        cleaned := cleaned - {f};
        steps := steps + [cleaned];
      }
    }
  }

  lemma SafeMeansAllHold(d: Disk)
    ensures Safe(d) <==> AllHold(CommittedState(d).catalog, d.objects)
  {
    assert Committed(d) == CommittedState(d).catalog;
  }

  /** Opening succeeds exactly on a safe directory whose `state.json` is not over 256 MiB, and then
      yields the state in it with exactly its files; every directory on the way has that state and is
      safe. */
  method Open(d: Disk) returns (ok: bool, found: State, after: Disk, ghost steps: seq<Disk>)
    ensures ok <==> Readable(d.state) && Safe(d)
    ensures ok ==> found == CommittedState(d) && after.state == d.state && Exact(found.catalog, after.objects)
    ensures !ok ==> after == d
    ensures |steps| > 0 && steps[0] == d && steps[|steps| - 1] == after
    ensures forall i :: 0 <= i < |steps| ==> steps[i].state == d.state && (ok ==> Safe(steps[i]))
  {
    found, after, steps := BLANK, d, [d];
    if d.state.Some? {
      if d.state.value.bytes > STATE_FILE_LIMIT {
        return false, found, after, steps;
      }
      found := d.state.value.state;
    }
    ghost var seen;
    var cleaned;
    ok, cleaned, seen := ValidateAndCleanup(found.catalog, d.objects);
    after := d.(objects := cleaned);
    steps := seq(|seen|, i requires 0 <= i < |seen| => d.(objects := seen[i]));
    SafeMeansAllHold(d);
    forall i | 0 <= i < |steps| ensures steps[i].state == d.state && (ok ==> Safe(steps[i])) {
      assert steps[i] == d.(objects := seen[i]) && CommittedState(steps[i]) == found;
      SafeMeansAllHold(steps[i]);
    }
  }

  /** Opening the directory that a crash at any step of any run of object operations left behind
      succeeds exactly when its `state.json` is not over 256 MiB: the new store then holds the state in
      it with exactly its files, and runs on.  The directories seen while opening become part of its
      trace, so a crash inside opening is covered as well: any of them opens again to the same state. */
  method OpenAfterCrash(store: ObjectStore, left: Disk) returns (next: Option<ObjectStore>)
    requires store.Valid() && left in store.trace
    ensures next.Some? <==> Readable(left.state)
    ensures next.Some? ==>
              var n := next.value;
              && fresh(n) && n.Valid() && State(n.live, n.rest) == CommittedState(left)
              && n.disk.state == left.state && Exact(n.live, n.disk.objects)
              && n.trace[0] == left && (forall i :: 0 <= i < |n.trace| ==> n.trace[i].state == left.state)
  {
    assert Safe(left) && CatalogOk(Committed(left));
    var ok, found, after, steps := Open(left);
    if !ok {
      return None;
    }
    ghost var n := |steps| - 1;
    assert steps == steps[..n] + [after];
    assert AllSafe(steps[..n] + [after]) by {
      assert forall i :: 0 <= i < |steps| ==> Committed(steps[i]) == Committed(left);
    }
    var reopened := new ObjectStore.Over(after, steps[..n]);
    next := Some(reopened);
  }

  /** Checked at the saves: if none of them writes a `state.json` over 256 MiB, whatever directory a
      crash at any step of any run leaves behind opens, with exactly the files of its state. */
  method OperateCrashOpen(ops: seq<ObjectOp>, left: Disk) returns (store: ObjectStore, ok: bool, after: Disk)
    requires forall op <- ops :: WellNamed(op) && Fits(SavingOf(op))
    ensures fresh(store) && store.Valid()
    ensures left in store.trace ==> ok && after.state == left.state && Exact(Committed(left), after.objects)
  {
    store := new ObjectStore();
    OperateAll(store, ops);
    var found;
    ghost var steps;
    ok, found, after, steps := Open(left);
    assert left in store.trace ==> Readable(left.state) && Safe(left);
  }

  /** A run that commits a longer one: nothing refuses the save, and the directory, safe as it is, does
      not open any more. */
  method OversizedStateDoesNotOpen() returns (store: ObjectStore, ok: bool)
    ensures fresh(store) && store.Valid() && Safe(store.disk) && store.live.buckets == {"b"}
    ensures store.disk.state.Some? && |store.disk.state.value.state.rest| == store.disk.state.value.bytes == STATE_FILE_LIMIT + 1
    ensures !ok
  {
    store := new ObjectStore();
    var rest := seq(STATE_FILE_LIMIT + 1, i requires 0 <= i < STATE_FILE_LIMIT + 1 => 'x');
    var error := store.CreateBucket("b", Commits("", 100));
    store.SaveRest(Commits(rest, |rest|));
    assert store.trace[|store.trace| - 1] == store.disk;
    var found, after;
    ghost var steps;
    ok, found, after, steps := Open(store.disk);
  }
}
