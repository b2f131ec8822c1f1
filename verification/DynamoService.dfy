/** The store's DynamoDB methods: tables changed in place, with a save that may fail. */
module DynamoService {
  import opened Common
  import opened Durable
  import opened DynamoValues
  import opened DynamoTables
  import opened DynamoTransactions
  import DynamoReads
  import R = DynamoRuns

  datatype Failure = Refused(error: Error) | SaveFailed

  /** Tables are found under their names, which hold no NUL (`dynamoTableNamePattern`). */
  ghost predicate Named(tables: Tables) {
    forall n <- tables :: tables[n].name == n && '\0' !in n
  }

  class TableStore {
    var tables: Tables
    var committed: Tables

    ghost function Now(): Store<Tables>
      reads this
    {
      Store(tables, committed)
    }

    ghost predicate Valid()
      reads this
    {
      Named(tables) && Named(committed)
    }

    constructor (tables: Tables)
      requires Named(tables)
      ensures Valid()
      ensures Now() == Store(tables, tables)
    {
      this.tables, committed := tables, tables;
    }

    method Save(ok: bool)
      modifies this
      ensures Now() == Settle(old(Now()), Write(old(tables), true), ok)
    {
      if ok {
        committed := tables;
      } else {
        tables := committed;
      }
    }

    /** Stores a changed table and saves. */
    method Commit(name: string, t: Table, saveOk: bool) returns (error: Option<Failure>)
      requires Valid() && name in tables && t.name == name
      modifies this
      ensures Valid()
      ensures Now() == Settle(old(Now()), Write(old(tables)[name := t], true), saveOk)
      ensures error == if saveOk then None else Some(SaveFailed)
    {
      tables := tables[name := t];
      Save(saveOk);
      error := if saveOk then None else Some(SaveFailed);
    }

    method PutItem(name: string, item: Item, condition: Condition, saveOk: bool) returns (error: Option<Failure>)
      requires Valid()
      modifies this
      ensures Valid()
      ensures Now() == R.Advance(old(Now()), Step(R.PutItem(name, item, condition), saveOk))
      ensures error == if name !in old(tables) then Some(Refused(NotFound))
                       else match Put(old(tables)[name], item, condition)
                            case Err(e) => Some(Refused(e))
                            case Ok(_) => if saveOk then None else Some(SaveFailed)
      ensures name in old(tables) ==>
                var t, k := old(tables)[name], ItemKey(old(tables)[name].schema, item);
                && (error == Some(Refused(Validation)) <==> k.None?)
                && (error == Some(Refused(ConditionFailed)) <==> k.Some? && DynamoReads.Fails(condition, Stored(t, k.value)))
                && (error.None? && SingleItem(item) ==> tables == old(tables)[name := t.(items := t.items[k.value := item])])
    {
      hide ItemKey, SingleItem, CloneItem;
      if name !in tables {
        return Some(Refused(NotFound));
      }
      var t := tables[name];
      var key := ItemKey(t.schema, item);
      if key.None? {
        return Some(Refused(Validation));
      }
      if !Passes(condition, Stored(t, key.value)) {
        return Some(Refused(ConditionFailed));
      }
      if SingleItem(item) {
        SingleItemIsKept(item);
      }
      error := Commit(name, t.(items := t.items[key.value := CloneItem(item)]), saveOk);
    }

    /** Deleting an absent item succeeds without a save. */
    method DeleteItem(name: string, keyItem: Item, condition: Condition, saveOk: bool) returns (error: Option<Failure>)
      requires Valid()
      modifies this
      ensures Valid()
      ensures Now() == R.Advance(old(Now()), Step(R.DeleteItem(name, keyItem, condition), saveOk))
      ensures error == if name !in old(tables) then Some(Refused(NotFound))
                       else match Delete(old(tables)[name], keyItem, condition)
                            case Err(e) => Some(Refused(e))
                            case Ok(t) => if t == old(tables)[name] || saveOk then None else Some(SaveFailed)
      ensures name in old(tables) ==>
                var t, k := old(tables)[name], ItemKey(old(tables)[name].schema, keyItem);
                && (error == Some(Refused(Validation)) <==> k.None?)
                && (error == Some(Refused(ConditionFailed)) <==> k.Some? && DynamoReads.Fails(condition, Stored(t, k.value)))
                && (error.None? ==> tables == old(tables)[name := t.(items := t.items - {k.value})])
    {
      hide ItemKey, SingleItem, CloneItem;
      if name !in tables {
        return Some(Refused(NotFound));
      }
      var t := tables[name];
      var key := ItemKey(t.schema, keyItem);
      if key.None? {
        return Some(Refused(Validation));
      }
      if !Passes(condition, Stored(t, key.value)) {
        return Some(Refused(ConditionFailed));
      }
      if key.value !in t.items {
        assert t.items - {key.value} == t.items;
        assert tables == tables[name := t];
        return None;
      }
      assert key.value !in (t.items - {key.value});
      error := Commit(name, t.(items := t.items - {key.value}), saveOk);
    }

    method UpdateItem(name: string, keyItem: Item, condition: Condition, update: Updater, saveOk: bool) returns (error: Option<Failure>)
      requires Valid()
      modifies this
      ensures Valid()
      ensures Now() == R.Advance(old(Now()), Step(R.UpdateItem(name, keyItem, condition, update), saveOk))
      ensures error == if name !in old(tables) then Some(Refused(NotFound))
                       else match Update(old(tables)[name], keyItem, condition, update)
                            case Err(e) => Some(Refused(e))
                            case Ok(_) => if saveOk then None else Some(SaveFailed)
      ensures name in old(tables) ==>
                var t, k := old(tables)[name], ItemKey(old(tables)[name].schema, keyItem);
                && (k.None? ==> error == Some(Refused(Validation)))
                && (k.Some? && DynamoReads.Fails(condition, Stored(t, k.value)) ==> error == Some(Refused(ConditionFailed)))
                && (error.None? && (SingleItem(keyItem) || k.value in t.items) ==>
                      var next := update(if k.value in t.items then t.items[k.value] else keyItem);
                      && next.Ok? && ItemKey(t.schema, next.value) == k
                      && (SingleItem(next.value) ==> tables == old(tables)[name := t.(items := t.items[k.value := next.value])]))
    {
      hide ItemKey, SingleItem, CloneItem;
      if name !in tables {
        return Some(Refused(NotFound));
      }
      var t := tables[name];
      var key := ItemKey(t.schema, keyItem);
      if key.None? {
        return Some(Refused(Validation));
      }
      if !Passes(condition, Stored(t, key.value)) {
        return Some(Refused(ConditionFailed));
      }
      if SingleItem(keyItem) {
        SingleItemIsKept(keyItem);
      }
      var base := if key.value in t.items then t.items[key.value] else CloneItem(keyItem);
      var next := update(base);
      if next.Err? {
        return Some(Refused(next.error));
      }
      if ItemKey(t.schema, next.value) != key {
        return Some(Refused(Validation));
      }
      if SingleItem(next.value) {
        SingleItemIsKept(next.value);
      }
      error := Commit(name, t.(items := t.items[key.value := CloneItem(next.value)]), saveOk);
    }

    /** First pass: resolve every operation, remembering the identities seen. */
    static method ResolveOps(tables: Tables, ops: seq<WriteOp>) returns (r: Option<seq<Resolved>>)
      requires Named(tables)
      ensures r.Some? <==> Acceptable(tables, ops)
      ensures r.Some? ==> r.value == ResolveAll(tables, ops) && forall x <- r.value :: x.table in tables
    {
      hide DynamoTransactions.Resolve, SoFar;
      var resolved: seq<Resolved>, seen: set<string> := [], {};
      var i := 0;
      NothingSoFar(tables, ops);
      while i < |ops|
        invariant i <= |ops| && SoFar(tables, ops, i, resolved, seen)
      {
        var one := DynamoTransactions.Resolve(tables, ops[i]);
        if one.None? {
          assert ops[i] in ops;
          return None;
        }
        if Identity(one.value) in seen {
          SeenMeansClash(tables, ops, i, resolved, seen, one.value);
          return None;
        }
        UnseenMeansFree(tables, ops, i, resolved, seen, one.value);
        resolved, seen, i := resolved + [one.value], seen + {Identity(one.value)}, i + 1;
      }
      SoFarIsAll(tables, ops, resolved, seen);
      r := Some(resolved);
    }

    /** Second pass: apply them one by one. */
    static method ApplyResolved(tables: Tables, rs: seq<Resolved>) returns (r: Tables)
      requires forall x <- rs :: x.table in tables
      ensures r == ApplyAll(tables, rs)
    {
      hide ApplyOne;
      r := tables;
      var i := 0;
      while i < |rs|
        invariant i <= |rs| && r == ApplyAll(tables, rs[..i])
      {
        assert rs[..i + 1][..i] == rs[..i] && rs[i] in rs;
        r := ApplyOne(r, rs[i]);
        i := i + 1;
      }
      assert rs[..i] == rs;
    }

    /** All or nothing: the whole transaction is applied and saved, or nothing changes. */
    method TransactWrite(ops: seq<WriteOp>, saveOk: bool) returns (ok: bool)
      requires Valid()
      modifies this
      ensures Valid()
      ensures ok <==> Transact(old(tables), ops).Some? && saveOk
      ensures Now() == R.Advance(old(Now()), Step(R.TransactWrite(ops), saveOk))
      ensures ok ==> DynamoReads.TransactLeaves(ops, old(tables), tables) && committed == tables
      ensures !ok ==> tables == old(if Transact(tables, ops).Some? then committed else tables)
    {
      hide NoClash, AllResolve, ApplyAll, DynamoReads.TransactLeaves;
      var resolved := ResolveOps(tables, ops);
      if resolved.None? {
        return false;
      }
      DynamoReads.TransactDoes(tables, ops);
      tables := ApplyResolved(tables, resolved.value);
      Save(saveOk);
      ok := saveOk;
    }

    /** The operations for one table, in request order. */
    static method CollectTable(table: string, writes: seq<BatchWrite>) returns (ops: Option<seq<WriteOp>>)
      ensures ops == if Malformed in writes then None else Some(OpsFor(table, writes))
    {
      var collected: seq<WriteOp>, i := [], 0;
      while i < |writes|
        invariant i <= |writes| && Malformed !in writes[..i] && collected == OpsFor(table, writes[..i])
      {
        assert writes[..i + 1][..i] == writes[..i];
        match writes[i] {
          case PutRequest(item) => collected := collected + [WriteOp("put", table, item, map[])];
          case DeleteRequest(key) => collected := collected + [WriteOp("delete", table, map[], key)];
          case Malformed => return None;
        }
        i := i + 1;
      }
      assert writes[..i] == writes;
      ops := Some(collected);
    }

    /** The tables of a request, in whatever order the map yields them. */
    static method CollectBatch(request: map<string, seq<BatchWrite>>) returns (ops: Option<seq<WriteOp>>, ghost order: seq<string>)
      ensures ops.Some? <==> WellFormedBatch(request)
      ensures ops.Some? ==> IsOrder(request, order) && (forall n <- order :: n in request) && ops.value == Collect(request, order)
    {
      var collected: seq<WriteOp>, todo := [], request.Keys;
      order := [];
      while todo != {}
        invariant todo <= request.Keys && multiset(order) == multiset(request.Keys - todo)
        invariant forall n <- request.Keys - todo :: Malformed !in request[n]
        invariant forall n <- order :: n in request && Malformed !in request[n]
        invariant collected == Collect(request, order)
        decreases |todo|
      {
        var table :| table in todo;
        var more := CollectTable(table, request[table]);
        if more.None? {
          return None, order;
        }
        CollectSnoc(request, order, table);
        assert request.Keys - (todo - {table}) == (request.Keys - todo) + {table};
        collected, todo, order := collected + more.value, todo - {table}, order + [table];
      }
      assert request.Keys - todo == request.Keys;
      ops := Some(collected);
    }

    /** `BatchWriteItem`: one to 25 operations, transacted as collected.  The outcome is that of every
        order in which the map could have yielded the tables. */
    method BatchWrite(request: map<string, seq<BatchWrite>>, saveOk: bool) returns (ok: bool)
      requires Valid()
      modifies this
      ensures Valid()
      ensures !WellFormedBatch(request) ==> !ok && Now() == old(Now())
      ensures WellFormedBatch(request) ==>
                forall order: seq<string> | IsOrder(request, order) && (forall n <- order :: n in request) ::
                  var ops := Collect(request, order);
                  if 1 <= |ops| <= 25 then
                    && Now() == R.Advance(old(Now()), Step(R.TransactWrite(ops), saveOk))
                    && (ok <==> Transact(old(tables), ops).Some? && saveOk)
                  else !ok && Now() == old(Now())
      ensures ok ==> DynamoReads.BatchLeaves(request, old(tables), tables) && committed == tables
    {
      var ops, order := CollectBatch(request);
      if ops.None? {
        return false;
      }
      DynamoReads.BatchDoes(request, order, tables);
      hide Collect, Acceptable, IsOrder, DynamoReads.BatchLeaves;
      forall other: seq<string> | IsOrder(request, other)
        ensures (forall n <- other :: n in request) && |Collect(request, other)| == |ops.value|
        ensures Transact(tables, Collect(request, other)) == Transact(tables, ops.value)
      {
        BatchHasOneResult(tables, request, order, other);
      }
      if ops.value == [] || |ops.value| > 25 {
        return false;
      }
      ok := TransactWrite(ops.value, saveOk);
    }
  }

  /** What the `seen` set of `DynamoTransactWrite` holds. */
  function Identity(r: Resolved): string {
    r.table + ['\0'] + r.key
  }

  lemma IdentityIsSlot(a: Resolved, b: Resolved)
    requires '\0' !in a.table && '\0' !in b.table
    ensures Identity(a) == Identity(b) <==> SameSlot(a, b)
  {
    if Identity(a) == Identity(b) {
      CutUnique('\0', a.table, a.key, b.table, b.key);
    }
  }

  /** What the first pass has established after `i` operations. */
  ghost predicate SoFar(tables: Tables, ops: seq<WriteOp>, i: nat, resolved: seq<Resolved>, seen: set<string>) {
    && i <= |ops| && Acceptable(tables, ops[..i]) && resolved == ResolveAll(tables, ops[..i])
    && (forall r <- resolved :: r.table in tables && Identity(r) in seen)
    && (forall id <- seen :: exists r <- resolved :: Identity(r) == id)
  }

  lemma NothingSoFar(tables: Tables, ops: seq<WriteOp>)
    ensures SoFar(tables, ops, 0, [], {})
  {
    assert ops[..0] == [];
  }

  lemma SoFarIsAll(tables: Tables, ops: seq<WriteOp>, resolved: seq<Resolved>, seen: set<string>)
    requires SoFar(tables, ops, |ops|, resolved, seen)
    ensures Acceptable(tables, ops) && resolved == ResolveAll(tables, ops) && forall r <- resolved :: r.table in tables
  {
    assert ops[..|ops|] == ops;
  }

  lemma SeenMeansClash(tables: Tables, ops: seq<WriteOp>, i: nat, resolved: seq<Resolved>, seen: set<string>, one: Resolved)
    requires Named(tables) && i < |ops| && SoFar(tables, ops, i, resolved, seen)
    requires Resolve(tables, ops[i]) == Some(one) && Identity(one) in seen
    ensures !Acceptable(tables, ops)
  {
    hide Resolve, Identity;
    var r :| r in resolved && Identity(r) == Identity(one);
    var j :| 0 <= j < i && resolved[j] == r;
    assert ops[..i][j] == ops[j] && ops[..i][j] in ops[..i];
    assert resolved[j].table in tables && one.table in tables;
    IdentityIsSlot(resolved[j], one);
    assert Clash(tables, ops[j], ops[i]);
  }

  lemma UnseenMeansFree(tables: Tables, ops: seq<WriteOp>, i: nat, resolved: seq<Resolved>, seen: set<string>, one: Resolved)
    requires Named(tables) && i < |ops| && SoFar(tables, ops, i, resolved, seen)
    requires Resolve(tables, ops[i]) == Some(one) && Identity(one) !in seen
    ensures SoFar(tables, ops, i + 1, resolved + [one], seen + {Identity(one)})
  {
    hide Resolve, Identity;
    StaysAcceptable(tables, ops, i, resolved, seen, one);
    var longer, seen' := resolved + [one], seen + {Identity(one)};
    assert ops[..i + 1][..i] == ops[..i];
    forall id | id in seen' ensures exists r <- longer :: Identity(r) == id {
      if id == Identity(one) {
        assert one in longer;
      } else {
        var r :| r in resolved && Identity(r) == id;
        assert r in longer;
      }
    }
  }

  lemma StaysAcceptable(tables: Tables, ops: seq<WriteOp>, i: nat, resolved: seq<Resolved>, seen: set<string>, one: Resolved)
    requires Named(tables) && i < |ops| && SoFar(tables, ops, i, resolved, seen)
    requires Resolve(tables, ops[i]) == Some(one) && Identity(one) !in seen
    ensures Acceptable(tables, ops[..i + 1])
  {
    hide Resolve, Identity;
    var longer := ops[..i + 1];
    forall a, b | 0 <= a < b < |longer| ensures !Clash(tables, longer[a], longer[b]) {
      assert ops[..i][a] == ops[a] && ops[..i][a] in ops[..i];
      if b < i {
        assert !Clash(tables, ops[..i][a], ops[..i][b]);
      } else {
        assert resolved[a] in resolved && resolved[a].table in tables && one.table in tables;
        IdentityIsSlot(resolved[a], one);
      }
    }
    forall op | op in longer ensures Resolve(tables, op).Some? {
      if op != ops[i] { assert op in ops[..i]; }
    }
  }
}
