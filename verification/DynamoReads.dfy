/**
 What is read back: over runs, a get yields the item that the last write to its key stored, as it was
 sent; and what a batch leaves, request by request.
 */
module DynamoReads {
  import opened Common
  import opened Durable
  import opened DynamoValues
  import opened DynamoTables
  import opened DynamoTransactions
  import opened DynamoRuns

  /** The condition does not hold of the item found, or of an empty one if there is none. */
  predicate Fails(condition: Condition, found: Option<Item>) {
    condition.Some? && !(match found case Some(item) => condition.value(item, true) case None => condition.value(map[], false))
  }

  /** What a key is stored under: kind, name, type and text of every key attribute, in schema order, the
      attributes set off by 0x01; S counts before N, and N before B. */
  lemma {:induction false} KeyText(schema: seq<KeyElement>, item: Item)
    requires schema != []
    ensures ItemKey(schema, item).Some? <==>
              && schema[0].name in item && (item[schema[0].name].s.Some? || item[schema[0].name].n.Some? || item[schema[0].name].b.Some?)
              && (|schema| > 1 ==> ItemKey(schema[1..], item).Some?)
    ensures ItemKey(schema, item).Some? ==>
              var v := item[schema[0].name];
              var text := if v.s.Some? then "S\0" + v.s.value else if v.n.Some? then "N\0" + v.n.value else "B\0" + v.b.value;
              var first := schema[0].kind + "\0" + schema[0].name + "\0" + text;
              ItemKey(schema, item).value == if |schema| == 1 then first else first + "\U{0001}" + ItemKey(schema[1..], item).value
  {
    var key, e := PrimaryKey(schema, item), schema[0];
    assert key.Some? <==> e.name in item && KeyScalar(item[e.name]).Some? && PrimaryKey(schema[1..], item).Some?;
    assert PrimaryKey([], item) == Some([]);
    assert |schema| == 1 ==> schema[1..] == [];
    if key.Some? {
      var rest, scalar := PrimaryKey(schema[1..], item).value, KeyScalar(item[e.name]).value;
      assert key.value == [scalar] + rest && key.value[1..] == rest;
      assert Prefix(e) + EncodeScalar(scalar) == e.kind + "\0" + e.name + "\0" + ([Tag(scalar), '\0'] + scalar.text);
      if |schema| > 1 {
        assert Prefix(e) + (EncodeScalar(scalar) + [SEPARATOR] + Encode(schema[1..], rest))
            == (Prefix(e) + EncodeScalar(scalar)) + "\U{0001}" + Encode(schema[1..], rest);
        assert Encode(schema, key.value) == Prefix(e) + Tail(schema, key.value);
        assert Tail(schema, key.value) == EncodeScalar(scalar) + [SEPARATOR] + Encode(schema[1..], rest);
        assert ItemKey(schema[1..], item).value == Encode(schema[1..], rest);
      }
    }
  }

  /* ------------------------------ Reading over runs ------------------------------ */

  /** The item names a key other than `p`, with the separator in no but the last component. */
  ghost predicate Elsewhere(schema: seq<KeyElement>, named: Item, p: seq<Scalar>) {
    PrimaryKey(schema, named).Some? ==> Admissible(PrimaryKey(schema, named).value) && PrimaryKey(schema, named).value != p
  }

  /** The operation names other keys of the table, and neither empties nor removes it. */
  ghost predicate Spares(tables: Tables, op: Op, n: string, p: seq<Scalar>) {
    n in tables ==>
      match op
      case PutItem(m, item, _) => m == n ==> Elsewhere(tables[n].schema, item, p)
      case DeleteItem(m, key, _) => m == n ==> Elsewhere(tables[n].schema, key, p)
      case UpdateItem(m, key, _, _) => m == n ==> Elsewhere(tables[n].schema, key, p)
      case TransactWrite(ops) => forall w <- ops :: w.table == n ==> Elsewhere(tables[n].schema, Named(w), p)
      case CreateTable(_, _) => true
      case DeleteTable(m) => m != n
      case ClearTable(m) => m != n
      case ResetWorkload => false
      case Reset => false
  }

  /** At this key of the table there is this item, or none. */
  ghost predicate Held(tables: Tables, n: string, schema: seq<KeyElement>, p: seq<Scalar>, content: Option<Item>)
    requires |p| == |schema|
  {
    n in tables && tables[n].schema == schema && Stored(tables[n], Encode(schema, p)) == content
  }

  lemma ElsewhereIsOther(schema: seq<KeyElement>, named: Item, p: seq<Scalar>)
    requires |p| == |schema| && Admissible(p) && Elsewhere(schema, named, p)
    ensures ItemKey(schema, named) != Some(Encode(schema, p))
  {
    hide Encode;
    var q := PrimaryKey(schema, named);
    if q.Some? && Encode(schema, q.value) == Encode(schema, p) { EncodeInjective(schema, q.value, p); }
  }

  lemma ItemKeepsHeld(tables: Tables, op: Op, n: string, schema: seq<KeyElement>, p: seq<Scalar>, content: Option<Item>)
    requires OnItem(op) && |p| == |schema| && Admissible(p) && Spares(tables, op, n, p) && Held(tables, n, schema, p, content)
    ensures Held(Perform(tables, op).next, n, schema, p, content)
  {
    hide Encode, ItemKey;
    if op.table == n {
      ElsewhereIsOther(schema, if op.PutItem? then op.item else op.key, p);
      hide Elsewhere, Passes;
    }
  }

  lemma TransactKeepsHeld(tables: Tables, op: Op, n: string, schema: seq<KeyElement>, p: seq<Scalar>, content: Option<Item>)
    requires op.TransactWrite? && |p| == |schema| && Admissible(p) && Spares(tables, op, n, p) && Held(tables, n, schema, p, content)
    ensures Held(Perform(tables, op).next, n, schema, p, content)
  {
    if Acceptable(tables, op.ops) {
      var rs, k := ResolveAll(tables, op.ops), Encode(schema, p);
      forall i | 0 <= i < |rs| ensures !Hits(rs[i], n, k) {
        assert op.ops[i] in op.ops && Resolve(tables, op.ops[i]).Some?;
        if op.ops[i].table == n { ElsewhereIsOther(schema, Named(op.ops[i]), p); }
      }
      hide Resolve, ApplyAll, Encode, Hits;
      UntouchedSlot(tables, rs, n, k);
    }
  }

  lemma PerformKeepsHeld(tables: Tables, op: Op, n: string, schema: seq<KeyElement>, p: seq<Scalar>, content: Option<Item>)
    requires |p| == |schema| && Admissible(p) && Spares(tables, op, n, p) && Held(tables, n, schema, p, content)
    ensures Held(Perform(tables, op).next, n, schema, p, content)
  {
    if OnItem(op) {
      ItemKeepsHeld(tables, op, n, schema, p, content);
    } else if op.TransactWrite? {
      TransactKeepsHeld(tables, op, n, schema, p, content);
    } else {
      hide Encode;
    }
  }

  ghost predicate HeldStore(store: Store<Tables>, n: string, schema: seq<KeyElement>, p: seq<Scalar>, content: Option<Item>)
    requires |p| == |schema|
  {
    Held(store.live, n, schema, p, content) && Held(store.committed, n, schema, p, content)
  }

  lemma {:induction false} StaysHeld(
    states: seq<Store<Tables>>, steps: seq<Step<Op>>, n: string, schema: seq<KeyElement>, p: seq<Scalar>, content: Option<Item>, i: nat, j: nat)
    requires IsRun(Perform, states, steps) && i <= j <= |steps| && |p| == |schema| && Admissible(p)
    requires HeldStore(states[i], n, schema, p, content)
    requires forall k: nat :: i <= k < j ==> Spares(states[k].live, steps[k].op, n, p)
    ensures HeldStore(states[j], n, schema, p, content)
    decreases j
  {
    if i < j {
      hide Perform, Held, Spares, Admissible;
      StaysHeld(states, steps, n, schema, p, content, i, j - 1);
      assert StepAt(Perform, states, steps, j - 1);
      PerformKeepsHeld(states[j - 1].live, steps[j - 1].op, n, schema, p, content);
    }
  }

  /** What an accepted write leaves at the key it names: a put the item, a removal nothing, an update
      what it computes from the item found, or from the key. */
  ghost predicate Writes(tables: Tables, op: Op, n: string, p: seq<Scalar>, content: Option<Item>) {
    && n in tables && Perform(tables, op).saves && (content.Some? ==> SingleItem(content.value))
    && var schema := tables[n].schema;
       match op
       case PutItem(m, item, _) => m == n && PrimaryKey(schema, item) == Some(p) && content == Some(item)
       case DeleteItem(m, key, _) => m == n && PrimaryKey(schema, key) == Some(p) && content == None
       case UpdateItem(m, key, _, update) =>
         && m == n && PrimaryKey(schema, key) == Some(p) && (SingleItem(key) || Get(tables[n], key).value.Some?)
         && content.Some?
         && update(if Get(tables[n], key).value.Some? then Get(tables[n], key).value.value else key) == Ok(content.value)
       case TransactWrite(ops) =>
         exists w <- ops ::
           && w.table == n && (Lower(w.kind) == "put" || Lower(w.kind) == "delete")
           && (Lower(w.kind) == "put" ==> PrimaryKey(schema, w.item) == Some(p) && content == Some(w.item))
           && (Lower(w.kind) == "delete" ==> PrimaryKey(schema, w.key) == Some(p) && content == None)
       case _ => false
  }

  /** A write of an accepted transaction decides what its key holds afterwards. */
  lemma OwnWriteDecides(tables: Tables, ops: seq<WriteOp>, w: WriteOp)
    requires Acceptable(tables, ops) && w in ops
    ensures Resolve(tables, w).Some?
    ensures var r := Resolve(tables, w).value; Lookup(Written(tables, ops), r.table, r.key) == r.item
  {
    var rs := ResolveAll(tables, ops);
    var a :| 0 <= a < |ops| && ops[a] == w;
    var r := Resolve(tables, w).value;
    assert rs[a] == r && Hits(rs[a], r.table, r.key);
    hide Resolve, ApplyAll;
    forall i, j | 0 <= i < j < |rs| ensures !SameSlot(rs[i], rs[j]) { assert !Clash(tables, ops[i], ops[j]); }
    LookupAfter(tables, rs, r.table, r.key);
  }

  lemma ResolvesAs(tables: Tables, w: WriteOp, p: seq<Scalar>, content: Option<Item>)
    requires w.table in tables && (Lower(w.kind) == "put" || Lower(w.kind) == "delete")
    requires Lower(w.kind) == "put" ==> PrimaryKey(tables[w.table].schema, w.item) == Some(p) && content == Some(w.item)
    requires Lower(w.kind) == "delete" ==> PrimaryKey(tables[w.table].schema, w.key) == Some(p) && content == None
    requires content.Some? ==> SingleItem(content.value)
    ensures |p| == |tables[w.table].schema|
    ensures Resolve(tables, w) == Some(Resolved(w.table, Encode(tables[w.table].schema, p), content))
  {
    hide PrimaryKey, Encode, Lower, SingleItem, CloneItem;
    if content.Some? { SingleItemIsKept(content.value); }
  }

  lemma TransactHolds(tables: Tables, op: Op, n: string, p: seq<Scalar>, content: Option<Item>)
    requires op.TransactWrite? && Writes(tables, op, n, p, content)
    ensures |p| == |tables[n].schema| && Held(Perform(tables, op).next, n, tables[n].schema, p, content)
  {
    hide PrimaryKey, Encode, Lower, Resolve, NoClash, Single;
    var schema, ops := tables[n].schema, op.ops;
    var w :| && w in ops && w.table == n && (Lower(w.kind) == "put" || Lower(w.kind) == "delete")
             && (Lower(w.kind) == "put" ==> PrimaryKey(schema, w.item) == Some(p) && content == Some(w.item))
             && (Lower(w.kind) == "delete" ==> PrimaryKey(schema, w.key) == Some(p) && content == None);
    ResolvesAs(tables, w, p, content);
    OwnWriteDecides(tables, ops, w);
    hide ApplyAll;
  }

  lemma WriteHolds(tables: Tables, op: Op, n: string, p: seq<Scalar>, content: Option<Item>)
    requires Writes(tables, op, n, p, content)
    ensures |p| == |tables[n].schema| && Held(Perform(tables, op).next, n, tables[n].schema, p, content)
  {
    if op.TransactWrite? {
      TransactHolds(tables, op, n, p, content);
    } else {
      if content.Some? { SingleItemIsKept(content.value); }
      if op.UpdateItem? && SingleItem(op.key) { SingleItemIsKept(op.key); }
      hide PrimaryKey, Encode, Passes;
    }
  }

  /** Read your writes: after a saved write stored an item whose values have one member each, every get
      that names its key yields that item, and after a saved removal none, until a later operation
      names the key or removes or empties the table. */
  lemma GetAfterWrite(
    states: seq<Store<Tables>>, steps: seq<Step<Op>>, n: string, p: seq<Scalar>, content: Option<Item>, i: nat, j: nat, key: Item)
    requires IsRun(Perform, states, steps) && i < j <= |steps| && steps[i].saved && Admissible(p)
    requires Writes(states[i].live, steps[i].op, n, p, content)
    requires forall k: nat :: i < k < j ==> Spares(states[k].live, steps[k].op, n, p)
    requires PrimaryKey(states[i].live[n].schema, key) == Some(p)
    ensures n in states[j].live && Get(states[j].live[n], key) == Ok(content)
    ensures n in states[j].committed && Get(states[j].committed[n], key) == Ok(content)
  {
    hide Perform, Spares, Admissible, PrimaryKey, Encode, SingleItem;
    assert Perform(states[i].live, steps[i].op).saves;
    hide Writes;
    assert StepAt(Perform, states, steps, i);
    WriteHolds(states[i].live, steps[i].op, n, p, content);
    StaysHeld(states, steps, n, states[i].live[n].schema, p, content, i + 1, j);
  }

  /* ------------------------------ Batches ------------------------------ */

  /** Some request for the table names this encoded key. */
  ghost predicate Names(schema: seq<KeyElement>, writes: seq<BatchWrite>, k: string) {
    || (exists item :: PutRequest(item) in writes && ItemKey(schema, item) == Some(k))
    || (exists key :: DeleteRequest(key) in writes && ItemKey(schema, key) == Some(k))
  }

  /** The item is stored under its key. */
  ghost predicate PutLeaves(tables: Tables, tables': Tables, n: string, item: Item) {
    && n in tables && n in tables' && ItemKey(tables[n].schema, item).Some?
    && var k := ItemKey(tables[n].schema, item).value;
       SingleItem(item) ==> k in tables'[n].items && tables'[n].items[k] == item
  }

  /** Nothing is left under the key. */
  ghost predicate RemovalLeaves(tables: Tables, tables': Tables, n: string, key: Item) {
    && n in tables && n in tables' && ItemKey(tables[n].schema, key).Some?
    && ItemKey(tables[n].schema, key).value !in tables'[n].items
  }

  /** What is under the encoded key stays as it was. */
  ghost predicate Unchanged(tables: Tables, tables': Tables, n: string, k: string) {
    n in tables ==>
      && n in tables' && (k in tables'[n].items <==> k in tables[n].items)
      && (k in tables[n].items ==> tables'[n].items[k] == tables[n].items[k])
  }

  /** A transaction that goes through: every put is stored, every removal leaves nothing, and what no
      write names stays. */
  ghost predicate TransactLeaves(ops: seq<WriteOp>, tables: Tables, tables': Tables) {
    && (forall w <- ops ::
          || (Lower(w.kind) == "put" && PutLeaves(tables, tables', w.table, w.item))
          || (Lower(w.kind) == "delete" && RemovalLeaves(tables, tables', w.table, w.key)))
    && (forall n, k ::
          Unchanged(tables, tables', n, k)
          || exists w <- ops :: w.table == n && n in tables && ItemKey(tables[n].schema, Named(w)) == Some(k))
  }

  /** What no request names stays as it was. */
  ghost predicate OthersStay(request: map<string, seq<BatchWrite>>, tables: Tables, tables': Tables, n: string, k: string) {
    (n in tables && n in request && Names(tables[n].schema, request[n], k)) || Unchanged(tables, tables', n, k)
  }

  ghost predicate BatchLeaves(request: map<string, seq<BatchWrite>>, tables: Tables, tables': Tables) {
    && (forall n, item :: n in request && PutRequest(item) in request[n] ==> PutLeaves(tables, tables', n, item))
    && (forall n, key :: n in request && DeleteRequest(key) in request[n] ==> RemovalLeaves(tables, tables', n, key))
    && (forall n, k :: OthersStay(request, tables, tables', n, k))
  }

  lemma {:induction false} OpsForMembers(table: string, writes: seq<BatchWrite>, op: WriteOp)
    requires Malformed !in writes
    ensures op in OpsFor(table, writes) <==>
              || (op == WriteOp("put", table, op.item, map[]) && PutRequest(op.item) in writes)
              || (op == WriteOp("delete", table, map[], op.key) && DeleteRequest(op.key) in writes)
  {
    if writes != [] {
      var n := |writes| - 1;
      OpsForMembers(table, writes[..n], op);
      assert writes == writes[..n] + [writes[n]];
    }
  }

  lemma {:induction false} CollectMembers(request: map<string, seq<BatchWrite>>, order: seq<string>, op: WriteOp)
    requires forall n <- order :: n in request && Malformed !in request[n]
    ensures op in Collect(request, order) <==> op.table in order && op in OpsFor(op.table, request[op.table])
  {
    if order != [] {
      CollectMembers(request, order[1..], op);
      OpsForMembers(order[0], request[order[0]], op);
      assert order == [order[0]] + order[1..];
    }
  }

  lemma RequestsAreCollected(request: map<string, seq<BatchWrite>>, order: seq<string>, op: WriteOp)
    requires WellFormedBatch(request) && IsOrder(request, order)
    ensures forall n <- order :: n in request
    ensures op in Collect(request, order) <==>
              && op.table in request
              && (|| (op == WriteOp("put", op.table, op.item, map[]) && PutRequest(op.item) in request[op.table])
                  || (op == WriteOp("delete", op.table, map[], op.key) && DeleteRequest(op.key) in request[op.table]))
  {
    OrderMembers(request, order);
    CollectMembers(request, order, op);
    if op.table in request { OpsForMembers(op.table, request[op.table], op); }
  }

  lemma UnnamedStays(tables: Tables, ops: seq<WriteOp>, n: string, k: string)
    requires Acceptable(tables, ops)
    requires forall w <- ops :: w.table == n && n in tables ==> ItemKey(tables[n].schema, Named(w)) != Some(k)
    ensures Lookup(Written(tables, ops), n, k) == Lookup(tables, n, k)
  {
    var rs := ResolveAll(tables, ops);
    forall i | 0 <= i < |rs| ensures !Hits(rs[i], n, k) {
      assert ops[i] in ops && Resolve(tables, ops[i]).Some?;
    }
    hide Resolve, ApplyAll;
    UntouchedSlot(tables, rs, n, k);
  }

  lemma WriteDoes(tables: Tables, ops: seq<WriteOp>, w: WriteOp)
    requires Acceptable(tables, ops) && w in ops
    ensures || (Lower(w.kind) == "put" && PutLeaves(tables, Written(tables, ops), w.table, w.item))
            || (Lower(w.kind) == "delete" && RemovalLeaves(tables, Written(tables, ops), w.table, w.key))
  {
    OwnWriteDecides(tables, ops, w);
    hide ItemKey, Lower, Written, Acceptable, SingleItem;
    if SingleItem(w.item) { SingleItemIsKept(w.item); }
  }

  lemma TransactDoes(tables: Tables, ops: seq<WriteOp>)
    requires Acceptable(tables, ops)
    ensures TransactLeaves(ops, tables, Written(tables, ops))
  {
    var tables' := Written(tables, ops);
    hide Lower, ItemKey, Written, Acceptable, PutLeaves, RemovalLeaves;
    forall w | w in ops ensures
      || (Lower(w.kind) == "put" && PutLeaves(tables, tables', w.table, w.item))
      || (Lower(w.kind) == "delete" && RemovalLeaves(tables, tables', w.table, w.key))
    {
      WriteDoes(tables, ops, w);
    }
    forall n, k | !(exists w <- ops :: w.table == n && n in tables && ItemKey(tables[n].schema, Named(w)) == Some(k))
      ensures Unchanged(tables, tables', n, k)
    {
      UnnamedStays(tables, ops, n, k);
      WrittenKeys(tables, ops);
    }
  }

  lemma WrittenKeys(tables: Tables, ops: seq<WriteOp>)
    requires AllResolve(tables, ops)
    ensures Written(tables, ops).Keys == tables.Keys
  {
  }

  lemma KindsAreLower()
    ensures Lower("put") == "put" && Lower("delete") == "delete"
  {
    LowerAt("put");
    LowerAt("delete");
  }

  lemma BatchPuts(request: map<string, seq<BatchWrite>>, order: seq<string>, tables: Tables, n: string, item: Item)
    requires WellFormedBatch(request) && IsOrder(request, order) && n in request && PutRequest(item) in request[n]
    requires (forall x <- order :: x in request) && Acceptable(tables, Collect(request, order))
    ensures PutLeaves(tables, Written(tables, Collect(request, order)), n, item)
  {
    KindsAreLower();
    hide Lower, ItemKey, NoClash, Collect, ApplyAll;
    var w := WriteOp("put", n, item, map[]);
    RequestsAreCollected(request, order, w);
    OwnWriteDecides(tables, Collect(request, order), w);
    if SingleItem(item) { SingleItemIsKept(item); }
  }

  lemma BatchRemoves(request: map<string, seq<BatchWrite>>, order: seq<string>, tables: Tables, n: string, key: Item)
    requires WellFormedBatch(request) && IsOrder(request, order) && n in request && DeleteRequest(key) in request[n]
    requires (forall x <- order :: x in request) && Acceptable(tables, Collect(request, order))
    ensures RemovalLeaves(tables, Written(tables, Collect(request, order)), n, key)
  {
    KindsAreLower();
    hide Lower, ItemKey, NoClash, Collect, ApplyAll;
    var w := WriteOp("delete", n, map[], key);
    RequestsAreCollected(request, order, w);
    OwnWriteDecides(tables, Collect(request, order), w);
  }

  lemma BatchLeavesOthers(request: map<string, seq<BatchWrite>>, order: seq<string>, tables: Tables, n: string, k: string)
    requires WellFormedBatch(request) && IsOrder(request, order)
    requires (forall x <- order :: x in request) && Acceptable(tables, Collect(request, order))
    ensures OthersStay(request, tables, Written(tables, Collect(request, order)), n, k)
  {
    KindsAreLower();
    hide Lower, ItemKey, NoClash, Collect, ApplyAll;
    if n in tables && !(n in request && Names(tables[n].schema, request[n], k)) {
      forall w | w in Collect(request, order) && w.table == n ensures ItemKey(tables[n].schema, Named(w)) != Some(k) {
        RequestsAreCollected(request, order, w);
      }
      UnnamedStays(tables, Collect(request, order), n, k);
    }
  }

  /** A batch that goes through leaves what its requests say. */
  lemma BatchDoes(request: map<string, seq<BatchWrite>>, order: seq<string>, tables: Tables)
    requires WellFormedBatch(request) && IsOrder(request, order)
    ensures forall n <- order :: n in request
    ensures Acceptable(tables, Collect(request, order)) ==> BatchLeaves(request, tables, Written(tables, Collect(request, order)))
  {
    OrderMembers(request, order);
    var ops := Collect(request, order);
    if Acceptable(tables, ops) {
      var tables' := Written(tables, ops);
      hide Acceptable, Collect, Written, PutLeaves, RemovalLeaves, OthersStay, IsOrder, WellFormedBatch;
      forall n, item | n in request && PutRequest(item) in request[n] ensures PutLeaves(tables, tables', n, item) {
        BatchPuts(request, order, tables, n, item);
      }
      forall n, key | n in request && DeleteRequest(key) in request[n] ensures RemovalLeaves(tables, tables', n, key) {
        BatchRemoves(request, order, tables, n, key);
      }
      forall n, k ensures OthersStay(request, tables, tables', n, k) {
        BatchLeavesOthers(request, order, tables, n, k);
      }
    }
  }
}
