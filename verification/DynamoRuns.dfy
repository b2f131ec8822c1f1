/** DynamoDB tables over whole runs, with any save failing. */
module DynamoRuns {
  import opened Common
  import opened Durable
  import opened DynamoValues
  import opened DynamoTables
  import opened DynamoTransactions

  datatype Op =
    | CreateTable(table: string, schema: seq<KeyElement>)
    | DeleteTable(table: string)
    | ClearTable(table: string)
    | PutItem(table: string, item: Item, condition: Condition)
    | DeleteItem(table: string, key: Item, condition: Condition)
    | UpdateItem(table: string, key: Item, condition: Condition, update: Updater)
    | TransactWrite(ops: seq<WriteOp>)
    | ResetWorkload
    | Reset

  predicate OnItem(op: Op) {
    op.PutItem? || op.DeleteItem? || op.UpdateItem?
  }

  /** The table a put, delete or update leaves, or its error. */
  function Changed(t: Table, op: Op): Result<Table, Error>
    requires OnItem(op)
  {
    match op
    case PutItem(_, item, condition) => Put(t, item, condition)
    case DeleteItem(_, key, condition) => Delete(t, key, condition)
    case UpdateItem(_, key, condition, update) => Update(t, key, condition, update)
  }

  /** An operation's effect on the tables; deleting an absent item does not save. */
  ghost function Perform(tables: Tables, op: Op): Write<Tables> {
    var same := Write(tables, false);
    if op.TransactWrite? then
      var after := Transact(tables, op.ops);
      if after.None? then same else Write(after.value, true)
    else if op.ResetWorkload? then Write(map n | n in tables :: tables[n].(items := map[]), true)
    else if op.Reset? then Write(map[], true)
    else if op.CreateTable? then
      if op.table in tables then same else Write(tables[op.table := Table(op.table, op.schema, map[])], true)
    else if op.table !in tables then same
    else if op.DeleteTable? then Write(tables - {op.table}, true)
    else if op.ClearTable? then Write(tables[op.table := tables[op.table].(items := map[])], true)
    else
      var t := Changed(tables[op.table], op);
      if t.Err? || (op.DeleteItem? && t.value == tables[op.table]) then same
      else Write(tables[op.table := t.value], true)
  }

  ghost function Advance(store: Store<Tables>, step: Step<Op>): Store<Tables> {
    Settle(store, Perform(store.live, step.op), step.saved)
  }

  /** A run from an empty store. */
  ghost predicate Runs(states: seq<Store<Tables>>, steps: seq<Step<Op>>) {
    IsRun(Perform, states, steps) && states[0] == Store(map[], map[])
  }

  lemma RunStep(states: seq<Store<Tables>>, steps: seq<Step<Op>>, i: nat)
    requires Runs(states, steps) && i < |steps|
    ensures states[i + 1] == Advance(states[i], steps[i])
  {
    hide Perform;
    assert StepAt(Perform, states, steps, i);
  }

  /* ------------------------------ The index ------------------------------ */

  /** The items to store have key attributes that survive cloning; for an update, the one it computes
      from the base it is given. */
  ghost predicate Typed(tables: Tables, op: Op) {
    match op
    case PutItem(n, item, _) => n in tables ==> StableKeys(tables[n].schema, item)
    case UpdateItem(n, key, _, update) =>
      n in tables && ItemKey(tables[n].schema, key).Some? && update(Base(tables[n], key)).Ok? ==>
        StableKeys(tables[n].schema, update(Base(tables[n], key)).value)
    case TransactWrite(ops) => forall w <- ops :: StableWrite(tables, w)
    case _ => true
  }

  lemma ChangedKeepsIndex(t: Table, op: Op)
    requires OnItem(op) && Indexed(t) && Changed(t, op).Ok?
    requires op.PutItem? ==> StableKeys(t.schema, op.item)
    requires op.UpdateItem? && ItemKey(t.schema, op.key).Some? && op.update(Base(t, op.key)).Ok? ==>
               StableKeys(t.schema, op.update(Base(t, op.key)).value)
    ensures Indexed(Changed(t, op).value)
  {
    hide Indexed, StableKeys;
    match op
    case PutItem(_, item, condition) => PutKeepsIndex(t, item, condition);
    case DeleteItem(_, key, condition) => DeleteKeepsIndex(t, key, condition);
    case UpdateItem(_, key, condition, update) => UpdateKeepsIndex(t, key, condition, update);
  }

  lemma PerformKeepsIndex(tables: Tables, op: Op)
    requires AllIndexed(tables) && Typed(tables, op)
    ensures AllIndexed(Perform(tables, op).next)
  {
    hide Written, StableKeys, StableWrite, Base, ItemKey;
    if op.TransactWrite? {
      if Acceptable(tables, op.ops) { TransactKeepsIndex(tables, op.ops); }
    } else if !op.ResetWorkload? && !op.Reset? && OnItem(op) && op.table in tables && Changed(tables[op.table], op).Ok? {
      ChangedKeepsIndex(tables[op.table], op);
      hide Changed, Indexed;
    }
  }

  /** In every run of such operations, in memory and on disk, every item is stored under the encoding
      of its own key attributes. */
  lemma {:induction false} AlwaysIndexed(states: seq<Store<Tables>>, steps: seq<Step<Op>>, i: nat)
    requires Runs(states, steps) && i < |states|
    requires forall k :: 0 <= k < i ==> Typed(states[k].live, steps[k].op)
    ensures AllIndexed(states[i].live) && AllIndexed(states[i].committed)
  {
    hide Perform, Indexed, Typed;
    if i > 0 {
      AlwaysIndexed(states, steps, i - 1);
      RunStep(states, steps, i - 1);
      PerformKeepsIndex(states[i - 1].live, steps[i - 1].op);
    }
  }

  /** In particular `SET x = :v`, on every indexed table in whose key `x` does not occur. */
  lemma SetIsTyped(tables: Tables, n: string, key: Item, condition: Condition, x: string, v: AttributeValue)
    requires AllIndexed(tables) && (n in tables ==> forall e <- tables[n].schema :: e.name != x)
    ensures Typed(tables, UpdateItem(n, key, condition, (base: Item) => Ok(base[x := v])))
  {
    hide ItemKey;
    if n in tables && ItemKey(tables[n].schema, key).Some? {
      PassThroughIsStable(tables[n], key, Base(tables[n], key)[x := v]);
    }
  }

  /* ------------------------------ Admissible keys ------------------------------ */

  ghost predicate AdmissibleKey(schema: seq<KeyElement>, item: Item) {
    PrimaryKey(schema, item).Some? ==> Admissible(PrimaryKey(schema, item).value)
  }

  predicate IsPut(w: WriteOp) {
    Lower(w.kind) == "put"
  }

  /** The item whose key attributes a write names. */
  function Named(w: WriteOp): Item {
    if IsPut(w) then w.item else w.key
  }

  /** Typed, and every key the operation names or stores has the separator only in its last component. */
  ghost predicate Proper(tables: Tables, op: Op) {
    && Typed(tables, op)
    && match op
       case PutItem(n, item, _) => n in tables ==> AdmissibleKey(tables[n].schema, item)
       case DeleteItem(n, key, _) => n in tables ==> AdmissibleKey(tables[n].schema, key)
       case UpdateItem(n, key, _, update) =>
         n in tables ==>
           && AdmissibleKey(tables[n].schema, key)
           && (ItemKey(tables[n].schema, key).Some? && update(Base(tables[n], key)).Ok? ==>
                 AdmissibleKey(tables[n].schema, update(Base(tables[n], key)).value))
       case TransactWrite(ops) => forall w <- ops :: w.table in tables ==> AdmissibleKey(tables[w.table].schema, Named(w))
       case _ => true
  }

  /** In every table each item is stored under the encoding of its own, admissible key. */
  ghost predicate AllClean(tables: Tables) {
    forall n <- tables :: Clean(tables[n])
  }

  /** `SET x = :v` is proper where the key it names is, and its clone. */
  lemma SetIsProper(tables: Tables, n: string, key: Item, condition: Condition, x: string, v: AttributeValue)
    requires AllClean(tables) && (n in tables ==> forall e <- tables[n].schema :: e.name != x)
    requires n in tables ==> AdmissibleKey(tables[n].schema, key) && AdmissibleKey(tables[n].schema, CloneItem(key))
    ensures Proper(tables, UpdateItem(n, key, condition, (base: Item) => Ok(base[x := v])))
  {
    assert forall m <- tables :: Clean(tables[m]) && Indexed(tables[m]);
    SetIsTyped(tables, n, key, condition, x, v);
    hide Typed, ItemKey, PrimaryKey;
    if n in tables && ItemKey(tables[n].schema, key).Some? {
      var t, k := tables[n], ItemKey(tables[n].schema, key).value;
      var base := Base(t, key);
      SamePrimaryKey(t.schema, base, base[x := v]);
      if k in t.items { assert Admissible(KeyAt(t, k)); }
    }
  }

  /* ------------------------------ The plain maps ------------------------------ */

  /** A table as a map from primary keys to items. */
  type Plain = map<seq<Scalar>, Item>

  function Found(view: Plain, p: seq<Scalar>): Option<Item> {
    if p in view then Some(view[p]) else None
  }

  /** What a put, delete or update does to the plain map. */
  function AbstractItem(schema: seq<KeyElement>, view: Plain, op: Op): Plain
    requires OnItem(op)
  {
    var named := if op.PutItem? then op.item else op.key;
    var p := PrimaryKey(schema, named);
    if p.None? || !Passes(op.condition, Found(view, p.value)) then view
    else
      match op
      case PutItem(_, item, _) => view[p.value := CloneItem(item)]
      case DeleteItem(_, _, _) => view - {p.value}
      case UpdateItem(_, key, _, update) =>
        var next := update(if p.value in view then view[p.value] else CloneItem(key));
        if next.Err? || PrimaryKey(schema, next.value) != p then view else view[p.value := CloneItem(next.value)]
  }

  /** Whether it then saves: a refused operation does not, nor does deleting an absent item. */
  predicate AbstractItemSaves(schema: seq<KeyElement>, view: Plain, op: Op)
    requires OnItem(op)
  {
    var named := if op.PutItem? then op.item else op.key;
    var p := PrimaryKey(schema, named);
    && p.Some? && Passes(op.condition, Found(view, p.value))
    && (op.DeleteItem? ==> p.value in view)
    && (op.UpdateItem? ==>
          var next := op.update(if p.value in view then view[p.value] else CloneItem(op.key));
          next.Ok? && PrimaryKey(schema, next.value) == p)
  }

  type Schemas = map<string, seq<KeyElement>>
  type Plains = map<string, Plain>

  function SchemasOf(tables: Tables): Schemas {
    map n | n in tables :: tables[n].schema
  }

  ghost function Views(tables: Tables): Plains {
    map n | n in tables :: View(tables[n])
  }

  /** The table and primary key that a write of a transaction names. */
  function Slot(schemas: Schemas, w: WriteOp): Option<(string, seq<Scalar>)> {
    if !(Lower(w.kind) == "put" || Lower(w.kind) == "delete") || w.table !in schemas then None
    else
      var p := PrimaryKey(schemas[w.table], Named(w));
      if p.None? then None else Some((w.table, p.value))
  }

  predicate AllSlots(schemas: Schemas, ops: seq<WriteOp>) {
    forall i :: 0 <= i < |ops| ==> Slot(schemas, ops[i]).Some?
  }

  /** Every write names a slot, and no two the same. */
  ghost predicate AbstractAcceptable(schemas: Schemas, ops: seq<WriteOp>) {
    && AllSlots(schemas, ops)
    && (forall i, j :: 0 <= i < j < |ops| ==> Slot(schemas, ops[i]) != Slot(schemas, ops[j]))
  }

  function AbstractWrite(schemas: Schemas, views: Plains, w: WriteOp): Plains
    requires Slot(schemas, w).Some? && w.table in views
  {
    var view, p := views[w.table], Slot(schemas, w).value.1;
    views[w.table := if IsPut(w) then view[p := CloneItem(w.item)] else view - {p}]
  }

  /** The plain puts and removals of a transaction, in order. */
  function AbstractAll(schemas: Schemas, views: Plains, ops: seq<WriteOp>): (r: Plains)
    requires schemas.Keys == views.Keys && AllSlots(schemas, ops)
    ensures r.Keys == views.Keys
  {
    if ops == [] then views
    else AbstractWrite(schemas, AbstractAll(schemas, views, ops[..|ops| - 1]), ops[|ops| - 1])
  }

  ghost function Abstract(schemas: Schemas, views: Plains, op: Op): Plains
    requires schemas.Keys == views.Keys
  {
    match op
    case TransactWrite(ops) => if AbstractAcceptable(schemas, ops) then AbstractAll(schemas, views, ops) else views
    case ResetWorkload => map n | n in views :: map[]
    case Reset => map[]
    case CreateTable(n, _) => if n in views then views else views[n := map[]]
    case DeleteTable(n) => views - {n}
    case ClearTable(n) => if n in views then views[n := map[]] else views
    case _ => if op.table in views then views[op.table := AbstractItem(schemas[op.table], views[op.table], op)] else views
  }

  function AbstractSchemas(schemas: Schemas, op: Op): Schemas {
    match op
    case Reset => map[]
    case CreateTable(n, schema) => if n in schemas then schemas else schemas[n := schema]
    case DeleteTable(n) => schemas - {n}
    case _ => schemas
  }

  ghost predicate AbstractSaves(schemas: Schemas, views: Plains, op: Op)
    requires schemas.Keys == views.Keys
  {
    match op
    case TransactWrite(ops) => AbstractAcceptable(schemas, ops)
    case ResetWorkload => true
    case Reset => true
    case CreateTable(n, _) => n !in views
    case DeleteTable(n) => n in views
    case ClearTable(n) => n in views
    case _ => op.table in views && AbstractItemSaves(schemas[op.table], views[op.table], op)
  }

  /** The tables as plain maps, each with its key schema. */
  datatype PlainTables = PlainTables(schemas: Schemas, maps: Plains)

  /** An operation on the plain maps alone. */
  ghost function AbstractPerform(p: PlainTables, op: Op): Write<PlainTables> {
    if p.schemas.Keys == p.maps.Keys then
      Write(PlainTables(AbstractSchemas(p.schemas, op), Abstract(p.schemas, p.maps, op)), AbstractSaves(p.schemas, p.maps, op))
    else Write(p, false)
  }

  /* ------------------------------ Items ------------------------------ */

  /** Whether a put, delete or update on the table saves. */
  predicate ItemSaves(t: Table, op: Op)
    requires OnItem(op)
  {
    Changed(t, op).Ok? && !(op.DeleteItem? && Changed(t, op).value == t)
  }

  lemma FoundIsStored(t: Table, p: seq<Scalar>)
    requires Clean(t) && |p| == |t.schema| && Admissible(p)
    ensures Found(View(t), p) == Stored(t, Encode(t.schema, p))
  {
    hide View, Clean;
    ViewLookup(t, p);
  }

  lemma PutIsAbstract(t: Table, op: Op)
    requires op.PutItem? && Clean(t) && StableKeys(t.schema, op.item) && AdmissibleKey(t.schema, op.item)
    ensures var t' := if Changed(t, op).Ok? then Changed(t, op).value else t;
            Clean(t') && View(t') == AbstractItem(t.schema, View(t), op)
            && (ItemSaves(t, op) <==> AbstractItemSaves(t.schema, View(t), op))
  {
    hide View, Clean, Encode, StableKeys;
    if PrimaryKey(t.schema, op.item).Some? {
      FoundIsStored(t, PrimaryKey(t.schema, op.item).value);
      if Changed(t, op).Ok? { PutRefines(t, op.item, op.condition); }
    }
  }

  lemma DeleteIsAbstract(t: Table, op: Op)
    requires op.DeleteItem? && Clean(t) && AdmissibleKey(t.schema, op.key)
    ensures var t' := if Changed(t, op).Ok? then Changed(t, op).value else t;
            Clean(t') && View(t') == AbstractItem(t.schema, View(t), op)
            && (ItemSaves(t, op) <==> AbstractItemSaves(t.schema, View(t), op))
  {
    hide View, Clean, Encode;
    if PrimaryKey(t.schema, op.key).Some? {
      FoundIsStored(t, PrimaryKey(t.schema, op.key).value);
      if Changed(t, op).Ok? {
        DeleteRefines(t, op.key, op.condition);
        var k := Encode(t.schema, PrimaryKey(t.schema, op.key).value);
        assert Changed(t, op).value == t <==> t.items - {k} == t.items;
        assert t.items - {k} == t.items <==> k !in t.items;
      }
    }
  }

  lemma BaseIsFound(t: Table, key: Item)
    requires Clean(t) && PrimaryKey(t.schema, key).Some? && Admissible(PrimaryKey(t.schema, key).value)
    ensures var p := PrimaryKey(t.schema, key).value;
            Base(t, key) == if p in View(t) then View(t)[p] else CloneItem(key)
  {
    hide View, Clean, Encode;
    FoundIsStored(t, PrimaryKey(t.schema, key).value);
  }

  lemma SameKeyIff(schema: seq<KeyElement>, a: Item, b: Item)
    requires PrimaryKey(schema, a).Some? && AdmissibleKey(schema, a) && AdmissibleKey(schema, b)
    ensures ItemKey(schema, b) == ItemKey(schema, a) <==> PrimaryKey(schema, b) == PrimaryKey(schema, a)
  {
    hide Encode;
    if PrimaryKey(schema, b).Some? && ItemKey(schema, b) == ItemKey(schema, a) {
      EncodeInjective(schema, PrimaryKey(schema, a).value, PrimaryKey(schema, b).value);
    }
  }

  lemma UpdateIsAbstract(t: Table, op: Op)
    requires op.UpdateItem? && Clean(t) && AdmissibleKey(t.schema, op.key)
    requires ItemKey(t.schema, op.key).Some? && op.update(Base(t, op.key)).Ok? ==>
               var next := op.update(Base(t, op.key)).value;
               StableKeys(t.schema, next) && AdmissibleKey(t.schema, next)
    ensures var t' := if Changed(t, op).Ok? then Changed(t, op).value else t;
            Clean(t') && View(t') == AbstractItem(t.schema, View(t), op)
            && (ItemSaves(t, op) <==> AbstractItemSaves(t.schema, View(t), op))
  {
    hide View, Clean, Encode, StableKeys, Base;
    if PrimaryKey(t.schema, op.key).Some? {
      FoundIsStored(t, PrimaryKey(t.schema, op.key).value);
      BaseIsFound(t, op.key);
      var next := op.update(Base(t, op.key));
      if next.Ok? {
        SameKeyIff(t.schema, op.key, next.value);
        if Changed(t, op).Ok? { UpdateRefines(t, op.key, op.condition, op.update, next.value); }
      }
    }
  }

  /* ------------------------------ Transactions ------------------------------ */

  ghost predicate ProperWrite(tables: Tables, w: WriteOp) {
    StableWrite(tables, w) && (w.table in tables ==> AdmissibleKey(tables[w.table].schema, Named(w)))
  }

  lemma ResolvesIff(tables: Tables, w: WriteOp)
    ensures Resolve(tables, w).Some? <==> Slot(SchemasOf(tables), w).Some?
    ensures Resolve(tables, w).Some? ==>
              var r, slot := Resolve(tables, w).value, Slot(SchemasOf(tables), w).value;
              && r.table == slot.0 == w.table && w.table in tables
              && PrimaryKey(tables[w.table].schema, Named(w)) == Some(slot.1)
              && r.key == Encode(tables[w.table].schema, slot.1)
              && r.item == if IsPut(w) then Some(CloneItem(w.item)) else None
  {
    hide PrimaryKey, Encode, Lower;
  }

  /** Encoded identities clash exactly when the primary keys are the same. */
  lemma ClashIff(tables: Tables, a: WriteOp, b: WriteOp)
    requires ProperWrite(tables, a) && ProperWrite(tables, b) && Resolve(tables, a).Some? && Resolve(tables, b).Some?
    ensures Clash(tables, a, b) <==> Slot(SchemasOf(tables), a) == Slot(SchemasOf(tables), b)
  {
    ResolvesIff(tables, a);
    ResolvesIff(tables, b);
    hide Resolve, Slot, PrimaryKey, Encode, StableWrite, Admissible;
    if a.table == b.table {
      var schema := tables[a.table].schema;
      var p, q := PrimaryKey(schema, Named(a)).value, PrimaryKey(schema, Named(b)).value;
      if Encode(schema, p) == Encode(schema, q) { EncodeInjective(schema, p, q); }
    }
  }

  lemma AcceptableIff(tables: Tables, ops: seq<WriteOp>)
    requires forall w <- ops :: ProperWrite(tables, w)
    ensures Acceptable(tables, ops) <==> AbstractAcceptable(SchemasOf(tables), ops)
  {
    hide Resolve, Slot, ProperWrite, Clash;
    forall i | 0 <= i < |ops| ensures Resolve(tables, ops[i]).Some? <==> Slot(SchemasOf(tables), ops[i]).Some? {
      ResolvesIff(tables, ops[i]);
    }
    assert AllResolve(tables, ops) <==> forall i :: 0 <= i < |ops| ==> Slot(SchemasOf(tables), ops[i]).Some? by {
      if forall i :: 0 <= i < |ops| ==> Slot(SchemasOf(tables), ops[i]).Some? {
        forall w | w in ops ensures Resolve(tables, w).Some? {
          var i :| 0 <= i < |ops| && ops[i] == w;
        }
      } else if AllResolve(tables, ops) {
        assert forall i :: 0 <= i < |ops| ==> ops[i] in ops;
      }
    }
    if AllResolve(tables, ops) {
      forall i, j | 0 <= i < j < |ops| ensures Clash(tables, ops[i], ops[j]) <==> Slot(SchemasOf(tables), ops[i]) == Slot(SchemasOf(tables), ops[j]) {
        assert ops[i] in ops && ops[j] in ops;
        ClashIff(tables, ops[i], ops[j]);
      }
    }
  }

  /** Changing one table changes one plain map. */
  lemma ViewsChange(tables: Tables, n: string, t: Table)
    ensures Views(tables[n := t]) == Views(tables)[n := View(t)]
    ensures AllClean(tables) && Clean(t) ==> AllClean(tables[n := t])
  {
    hide View, Clean;
  }

  lemma WrittenView(t: Table, w: WriteOp)
    requires Clean(t) && PrimaryKey(t.schema, Named(w)).Some? && AdmissibleKey(t.schema, Named(w))
    requires IsPut(w) ==> StableKeys(t.schema, w.item)
    ensures var p := PrimaryKey(t.schema, Named(w)).value;
            var t' := if IsPut(w) then Put(t, w.item, None) else Delete(t, w.key, None);
            t'.Ok? && Clean(t'.value) && View(t'.value) == if IsPut(w) then View(t)[p := CloneItem(w.item)] else View(t) - {p}
  {
    hide View, Clean, Encode, Lower, Admissible, StableKeys;
    if IsPut(w) { PutRefines(t, w.item, None); } else { DeleteRefines(t, w.key, None); }
  }

  /** A resolved put or removal is the plain one. */
  lemma ApplyOneRefines(tables: Tables, w: WriteOp)
    requires AllClean(tables) && ProperWrite(tables, w) && Resolve(tables, w).Some?
    ensures Slot(SchemasOf(tables), w).Some? && w.table in tables
    ensures var after := ApplyOne(tables, Resolve(tables, w).value);
            AllClean(after) && Views(after) == AbstractWrite(SchemasOf(tables), Views(tables), w)
  {
    ResolvesIff(tables, w);
    var t := tables[w.table];
    assert Clean(t) && (IsPut(w) ==> StableKeys(t.schema, w.item));
    hide Resolve, Slot, Clean, View, PrimaryKey, Admissible, Lower, ApplyOne, Put, Delete, StableKeys, IsPut;
    WrittenView(t, w);
    var t' := (if IsPut(w) then Put(t, w.item, None) else Delete(t, w.key, None)).value;
    ViewsChange(tables, w.table, t');
    assert Views(tables)[w.table] == View(t);
  }

  lemma SameSchemas(tables: Tables, tables': Tables, w: WriteOp)
    requires SchemasOf(tables) == SchemasOf(tables')
    ensures Resolve(tables, w) == Resolve(tables', w) && (ProperWrite(tables, w) <==> ProperWrite(tables', w))
  {
    hide PrimaryKey, StableKeys;
    assert tables.Keys == SchemasOf(tables).Keys == tables'.Keys;
    assert w.table in tables ==> tables[w.table].schema == SchemasOf(tables)[w.table] == tables'[w.table].schema;
  }

  lemma SlotsOf(tables: Tables, ops: seq<WriteOp>)
    requires AllResolve(tables, ops)
    ensures AllSlots(SchemasOf(tables), ops)
  {
    hide Resolve, Slot;
    forall i | 0 <= i < |ops| ensures Slot(SchemasOf(tables), ops[i]).Some? {
      assert ops[i] in ops;
      ResolvesIff(tables, ops[i]);
    }
  }

  lemma SchemasStay(tables: Tables, ops: seq<WriteOp>)
    requires AllResolve(tables, ops)
    ensures SchemasOf(Written(tables, ops)) == SchemasOf(tables)
  {
    hide ApplyOne, Resolve;
  }

  lemma ViewsKeys(tables: Tables)
    ensures Views(tables).Keys == SchemasOf(tables).Keys == tables.Keys
  {
    hide View;
  }

  lemma {:induction false} ApplyAllRefines(tables: Tables, ops: seq<WriteOp>)
    requires AllClean(tables) && AllResolve(tables, ops) && forall w <- ops :: ProperWrite(tables, w)
    ensures AllSlots(SchemasOf(tables), ops) && Views(tables).Keys == SchemasOf(tables).Keys
    ensures AllClean(Written(tables, ops)) && Views(Written(tables, ops)) == AbstractAll(SchemasOf(tables), Views(tables), ops)
  {
    hide Resolve, Slot, ProperWrite, AllResolve, AllSlots, AllClean, Views, SchemasOf;
    SlotsOf(tables, ops);
    ViewsKeys(tables);
    if ops != [] {
      hide ApplyOne, Written, AbstractAll, AbstractWrite;
      var n := |ops| - 1;
      var before, w := ops[..n], ops[n];
      assert w in ops && forall x <- before :: x in ops;
      WrittenSnoc(tables, ops);
      ApplyAllRefines(tables, before);
      SchemasStay(tables, before);
      SameSchemas(tables, Written(tables, before), w);
      ApplyOneRefines(Written(tables, before), w);
    }
  }

  /** A transaction is accepted exactly when its writes name distinct primary keys, and then leaves in
      every table the plain puts and removals on it. */
  lemma TransactRefines(tables: Tables, ops: seq<WriteOp>)
    requires AllClean(tables) && forall w <- ops :: ProperWrite(tables, w)
    ensures AbstractAcceptable(SchemasOf(tables), ops) ==> AllSlots(SchemasOf(tables), ops)
    ensures Transact(tables, ops).Some? <==> AbstractAcceptable(SchemasOf(tables), ops)
    ensures Views(tables).Keys == SchemasOf(tables).Keys
    ensures Transact(tables, ops).Some? ==>
              && AllClean(Transact(tables, ops).value)
              && Views(Transact(tables, ops).value) == AbstractAll(SchemasOf(tables), Views(tables), ops)
  {
    hide AllClean, ProperWrite, Views, Written, AbstractAll, AllSlots;
    ViewsKeys(tables);
    AcceptableIff(tables, ops);
    if Acceptable(tables, ops) { ApplyAllRefines(tables, ops); }
  }

  /* ------------------------------ Runs ------------------------------ */

  lemma ItemIsAbstract(tables: Tables, op: Op)
    requires OnItem(op) && op.table in tables && Clean(tables[op.table]) && Proper(tables, op)
    ensures var t := tables[op.table];
            var t' := if Changed(t, op).Ok? then Changed(t, op).value else t;
            Clean(t') && View(t') == AbstractItem(t.schema, View(t), op)
            && (ItemSaves(t, op) <==> AbstractItemSaves(t.schema, View(t), op))
  {
    hide View, Clean, AbstractItem, AbstractItemSaves, ItemSaves, StableKeys, AdmissibleKey, ItemKey;
    var t := tables[op.table];
    match op
    case PutItem(_, _, _) => PutIsAbstract(t, op);
    case DeleteItem(_, _, _) => DeleteIsAbstract(t, op);
    case UpdateItem(_, _, _, _) => UpdateIsAbstract(t, op);
  }

  lemma EmptyTable(t: Table)
    requires t.items == map[]
    ensures Clean(t) && View(t) == map[]
  {
  }

  ghost predicate Refines(tables: Tables, op: Op) {
    var next := Perform(tables, op).next;
    && AllClean(next) && Views(next) == Abstract(SchemasOf(tables), Views(tables), op)
    && SchemasOf(next) == AbstractSchemas(SchemasOf(tables), op)
    && (Perform(tables, op).saves <==> AbstractSaves(SchemasOf(tables), Views(tables), op))
  }

  lemma WritesAreProper(tables: Tables, op: Op)
    requires op.TransactWrite? && Proper(tables, op)
    ensures forall w <- op.ops :: ProperWrite(tables, w)
  {
    hide StableWrite, AdmissibleKey;
  }

  lemma TransactCases(tables: Tables, schemas: Schemas, views: Plains, op: Op)
    requires op.TransactWrite? && schemas.Keys == views.Keys
    ensures var after := Transact(tables, op.ops);
            Perform(tables, op) == if after.None? then Write(tables, false) else Write(after.value, true)
    ensures AbstractSaves(schemas, views, op) <==> AbstractAcceptable(schemas, op.ops)
    ensures AbstractSchemas(schemas, op) == schemas
    ensures Abstract(schemas, views, op) ==
            if AbstractAcceptable(schemas, op.ops) then AbstractAll(schemas, views, op.ops) else views
  {
    hide Transact, AbstractAll, AllSlots, AbstractAcceptable;
  }

  lemma TransactKeepsSchemas(tables: Tables, ops: seq<WriteOp>)
    requires Transact(tables, ops).Some?
    ensures SchemasOf(Transact(tables, ops).value) == SchemasOf(tables)
  {
    hide Written, NoClash;
    SchemasStay(tables, ops);
  }

  lemma TransactPerforms(tables: Tables, op: Op)
    requires op.TransactWrite? && AllClean(tables) && Proper(tables, op)
    ensures Refines(tables, op)
  {
    hide Perform, Abstract, AbstractSaves, AbstractSchemas, AllClean, Views, Proper, ProperWrite, AbstractAll, AbstractAcceptable, AllSlots, SchemasOf, Transact;
    ViewsKeys(tables);
    WritesAreProper(tables, op);
    TransactRefines(tables, op.ops);
    if Transact(tables, op.ops).Some? { TransactKeepsSchemas(tables, op.ops); }
    TransactCases(tables, SchemasOf(tables), Views(tables), op);
  }

  lemma ItemCases(tables: Tables, schemas: Schemas, views: Plains, op: Op)
    requires OnItem(op) && op.table in tables && op.table in views && schemas.Keys == views.Keys
    ensures var t := tables[op.table];
            && Perform(tables, op).next == tables[op.table := if Changed(t, op).Ok? then Changed(t, op).value else t]
            && (Perform(tables, op).saves <==> ItemSaves(t, op))
    ensures AbstractSaves(schemas, views, op) <==> AbstractItemSaves(schemas[op.table], views[op.table], op)
    ensures AbstractSchemas(schemas, op) == schemas
    ensures Abstract(schemas, views, op) == views[op.table := AbstractItem(schemas[op.table], views[op.table], op)]
  {
    hide Changed, AbstractItem, AbstractItemSaves;
  }

  lemma ChangedKeepsSchema(t: Table, op: Op)
    requires OnItem(op)
    ensures Changed(t, op).Ok? ==> Changed(t, op).value.schema == t.schema
  {
    hide ItemKey, Passes;
  }

  lemma ItemPerforms(tables: Tables, op: Op)
    requires OnItem(op) && AllClean(tables) && Proper(tables, op)
    ensures Refines(tables, op)
  {
    hide Proper, AbstractItem, AbstractItemSaves, ItemSaves, View, Clean, Changed;
    if op.table in tables {
      var t := tables[op.table];
      assert Clean(t) && Views(tables)[op.table] == View(t);
      hide Views, SchemasOf;
      ItemIsAbstract(tables, op);
      var t' := if Changed(t, op).Ok? then Changed(t, op).value else t;
      ViewsKeys(tables);
      ItemCases(tables, SchemasOf(tables), Views(tables), op);
      hide Perform, Abstract, AbstractSaves, AbstractSchemas, AllClean;
      ViewsChange(tables, op.table, t');
      ChangedKeepsSchema(t, op);
    }
  }

  lemma EmptyingPerforms(tables: Tables, op: Op)
    requires (op.CreateTable? || op.ClearTable?) && AllClean(tables)
    ensures Refines(tables, op)
  {
    hide View, Clean;
    if op.CreateTable? {
      EmptyTable(Table(op.table, op.schema, map[]));
      ViewsChange(tables, op.table, Table(op.table, op.schema, map[]));
    } else if op.table in tables {
      EmptyTable(tables[op.table].(items := map[]));
      ViewsChange(tables, op.table, tables[op.table].(items := map[]));
    }
  }

  lemma DroppingPerforms(tables: Tables, op: Op)
    requires (op.DeleteTable? || op.Reset?) && AllClean(tables)
    ensures Refines(tables, op)
  {
    hide View, Clean;
    var next := Perform(tables, op).next;
    assert Views(next) == Abstract(SchemasOf(tables), Views(tables), op);
    hide Views;
    assert SchemasOf(next) == AbstractSchemas(SchemasOf(tables), op);
  }

  lemma ResettingPerforms(tables: Tables, op: Op)
    requires op.ResetWorkload? && AllClean(tables)
    ensures Refines(tables, op)
  {
    hide View, Clean;
    var next := Perform(tables, op).next;
    forall n | n in tables ensures Clean(next[n]) && View(next[n]) == map[] { EmptyTable(next[n]); }
    assert Views(next) == Abstract(SchemasOf(tables), Views(tables), op);
    hide Views;
    assert SchemasOf(next) == SchemasOf(tables);
  }

  /** The refinement: every operation acts on the plain maps as `Abstract`. */
  lemma PerformRefines(tables: Tables, op: Op)
    requires AllClean(tables) && Proper(tables, op)
    ensures Refines(tables, op)
  {
    hide Refines, AllClean, Proper;
    if op.TransactWrite? {
      TransactPerforms(tables, op);
    } else if OnItem(op) {
      ItemPerforms(tables, op);
    } else if op.CreateTable? || op.ClearTable? {
      EmptyingPerforms(tables, op);
    } else if op.ResetWorkload? {
      ResettingPerforms(tables, op);
    } else {
      DroppingPerforms(tables, op);
    }
  }

  /** In every run of proper operations, in memory and on disk, every item is stored under the
      encoding of its own, admissible key. */
  lemma {:induction false} AlwaysClean(states: seq<Store<Tables>>, steps: seq<Step<Op>>, i: nat)
    requires Runs(states, steps) && i < |states|
    requires forall k :: 0 <= k < i ==> Proper(states[k].live, steps[k].op)
    ensures AllClean(states[i].live) && AllClean(states[i].committed)
  {
    hide Perform, Clean, Proper, Views, Abstract;
    if i > 0 {
      AlwaysClean(states, steps, i - 1);
      RunStep(states, steps, i - 1);
      PerformRefines(states[i - 1].live, steps[i - 1].op);
    }
  }

  ghost function PlainStore(store: Store<Tables>): Store<PlainTables> {
    Store(PlainTables(SchemasOf(store.live), Views(store.live)), PlainTables(SchemasOf(store.committed), Views(store.committed)))
  }

  ghost function PlainStores(states: seq<Store<Tables>>): seq<Store<PlainTables>> {
    seq(|states|, i requires 0 <= i < |states| => PlainStore(states[i]))
  }

  lemma StepRefines(states: seq<Store<Tables>>, steps: seq<Step<Op>>, i: nat)
    requires Runs(states, steps) && i < |steps|
    requires forall k :: 0 <= k < |steps| ==> Proper(states[k].live, steps[k].op)
    ensures StepAt(AbstractPerform, PlainStores(states), steps, i)
  {
    hide Perform, AllClean, Proper, Views, SchemasOf, Abstract, AbstractSaves, AbstractSchemas;
    AlwaysClean(states, steps, i);
    RunStep(states, steps, i);
    PerformRefines(states[i].live, steps[i].op);
    ViewsKeys(states[i].live);
    assert PlainStore(states[i + 1]) == Settle(PlainStore(states[i]), AbstractPerform(PlainStore(states[i]).live, steps[i].op), steps[i].saved);
    hide PlainStore, AbstractPerform, Settle, Runs;
    var plain := PlainStores(states);
    assert plain[i] == PlainStore(states[i]);
    assert plain[i + 1] == PlainStore(states[i + 1]);
  }

  /** The simulation: every run of proper operations, with any failed saves, is a run of the plain maps
      alone, in memory and on disk. */
  lemma {:induction false} RunRefinesMap(states: seq<Store<Tables>>, steps: seq<Step<Op>>)
    requires Runs(states, steps)
    requires forall k :: 0 <= k < |steps| ==> Proper(states[k].live, steps[k].op)
    ensures IsRun(AbstractPerform, PlainStores(states), steps)
    ensures PlainStores(states)[0] == Store(PlainTables(map[], map[]), PlainTables(map[], map[]))
  {
    var plain := PlainStores(states);
    assert |states| == |steps| + 1;
    assert |plain| == |steps| + 1;
    hide StepAt, PlainStores, Proper, Runs;
    forall i: nat | i < |steps| ensures StepAt(AbstractPerform, plain, steps, i) {
      StepRefines(states, steps, i);
    }
  }

  /** And every get in such a run is a lookup in the plain map. */
  lemma RunGets(states: seq<Store<Tables>>, steps: seq<Step<Op>>, i: nat, n: string, key: Item)
    requires Runs(states, steps) && i < |states| && n in states[i].live
    requires forall k :: 0 <= k < i ==> Proper(states[k].live, steps[k].op)
    requires AdmissibleKey(states[i].live[n].schema, key)
    ensures var t, p := states[i].live[n], PrimaryKey(states[i].live[n].schema, key);
            Get(t, key) == if p.None? then Err(Validation) else Ok(Found(Views(states[i].live)[n], p.value))
  {
    hide Perform, Proper, View, Clean, PrimaryKey, Admissible;
    AlwaysClean(states, steps, i);
    var t := states[i].live[n];
    assert Clean(t);
    if PrimaryKey(t.schema, key).Some? { GetRefines(t, key); }
  }

  /* ------------------------------ Failed saves ------------------------------ */

  /** Erasing the failed steps of any run changes nothing. */
  lemma DynamoFailuresLeaveNoTrace(states: seq<Store<Tables>>, steps: seq<Step<Op>>) returns (kept: seq<Store<Tables>>)
    requires Runs(states, steps)
    ensures Runs(kept, Succeeding(steps)) && kept[|kept| - 1] == states[|steps|]
  {
    forall i: nat | i < |steps| ensures DisciplinedAt(Perform, states, steps, i) {
      assert StepAt(Perform, states, steps, i);
    }
    hide Perform;
    kept := FailedSavesLeaveNoTrace(Perform, states, steps);
  }

  /** Two runs that differ only in steps whose save fails agree in every state and every commit. */
  lemma DynamoFailuresDoNotMatter(
    states: seq<Store<Tables>>, steps: seq<Step<Op>>, states': seq<Store<Tables>>, steps': seq<Step<Op>>, n: nat)
    requires Runs(states, steps) && Runs(states', steps') && n <= |steps| == |steps'|
    requires forall i: nat :: i < |steps| ==> SameUnlessFailed(Perform, states, steps, states', steps', i)
    ensures states[n] == states'[n]
  {
    FailedMutationsDoNotMatter(Perform, states, steps, states', steps', n);
  }
}
