/** `DynamoTransactWrite` and `BatchWriteItem`: resolve everything first, then apply. */
module DynamoTransactions {
  import opened Common
  import opened DynamoValues
  import opened DynamoTables

  type Tables = map<string, Table>

  datatype WriteOp = WriteOp(kind: string, table: string, item: Item, key: Item)

  /** A checked operation: its table, encoded key, and the item to store (`None` deletes). */
  datatype Resolved = Resolved(table: string, key: string, item: Option<Item>)

  function Resolve(tables: Tables, op: WriteOp): (r: Option<Resolved>)
    ensures r.Some? ==> r.value.table in tables
  {
    var kind := Lower(op.kind);
    if kind != "put" && kind != "delete" then None
    else if op.table !in tables then None
    else
      var key := ItemKey(tables[op.table].schema, if kind == "put" then op.item else op.key);
      if key.None? then None
      else Some(Resolved(op.table, key.value, if kind == "put" then Some(CloneItem(op.item)) else None))
  }

  function ResolveAll(tables: Tables, ops: seq<WriteOp>): (r: seq<Resolved>)
    requires forall op <- ops :: Resolve(tables, op).Some?
    ensures |r| == |ops| && forall i :: 0 <= i < |ops| ==> r[i] == Resolve(tables, ops[i]).value
  {
    if ops == [] then []
    else
      var n := |ops| - 1;
      assert forall op <- ops[..n] :: op in ops;
      ResolveAll(tables, ops[..n]) + [Resolve(tables, ops[n]).value]
  }

  predicate SameSlot(a: Resolved, b: Resolved) {
    a.table == b.table && a.key == b.key
  }

  predicate Clash(tables: Tables, a: WriteOp, b: WriteOp) {
    Resolve(tables, a).Some? && Resolve(tables, b).Some? && SameSlot(Resolve(tables, a).value, Resolve(tables, b).value)
  }

  ghost predicate AllResolve(tables: Tables, ops: seq<WriteOp>) {
    forall op <- ops :: Resolve(tables, op).Some?
  }

  ghost predicate NoClash(tables: Tables, ops: seq<WriteOp>) {
    forall i, j :: 0 <= i < j < |ops| ==> !Clash(tables, ops[i], ops[j])
  }

  /** Every operation is well-formed and no two touch the same item. */
  ghost predicate Acceptable(tables: Tables, ops: seq<WriteOp>) {
    AllResolve(tables, ops) && NoClash(tables, ops)
  }

  function ApplyOne(tables: Tables, r: Resolved): Tables
    requires r.table in tables
  {
    var t := tables[r.table];
    tables[r.table := t.(items := if r.item.Some? then t.items[r.key := r.item.value] else t.items - {r.key})]
  }

  function ApplyAll(tables: Tables, rs: seq<Resolved>): (r: Tables)
    requires forall x <- rs :: x.table in tables
    ensures r.Keys == tables.Keys
    ensures forall n <- tables :: r[n].name == tables[n].name && r[n].schema == tables[n].schema
  {
    if rs == [] then tables else ApplyOne(ApplyAll(tables, rs[..|rs| - 1]), rs[|rs| - 1])
  }

  /** The tables after the writes, in order. */
  ghost function Written(tables: Tables, ops: seq<WriteOp>): Tables
    requires AllResolve(tables, ops)
  {
    ApplyAll(tables, ResolveAll(tables, ops))
  }

  lemma WrittenSnoc(tables: Tables, ops: seq<WriteOp>)
    requires ops != [] && AllResolve(tables, ops)
    ensures var n := |ops| - 1;
            && AllResolve(tables, ops[..n]) && Resolve(tables, ops[n]).Some? && Resolve(tables, ops[n]).value.table in Written(tables, ops[..n])
            && Written(tables, ops) == ApplyOne(Written(tables, ops[..n]), Resolve(tables, ops[n]).value)
  {
    hide ApplyOne, Resolve;
    var n, rs := |ops| - 1, ResolveAll(tables, ops);
    assert ops[n] in ops && forall w <- ops[..n] :: w in ops;
    assert rs[..n] == ResolveAll(tables, ops[..n]);
  }

  ghost function Transact(tables: Tables, ops: seq<WriteOp>): Option<Tables> {
    if Acceptable(tables, ops) then Some(Written(tables, ops)) else None
  }

  ghost predicate AllIndexed(tables: Tables) {
    forall n <- tables :: Indexed(tables[n])
  }

  lemma ApplyOneKeepsIndex(tables: Tables, r: Resolved)
    requires AllIndexed(tables) && r.table in tables
    requires r.item.Some? ==> ItemKey(tables[r.table].schema, r.item.value) == Some(r.key) && CloneItem(r.item.value) == r.item.value
    ensures AllIndexed(ApplyOne(tables, r))
  {
    hide ItemKey;
    var t, t' := tables[r.table], ApplyOne(tables, r)[r.table];
    forall k | k in t'.items ensures IndexedAt(t', k) {
      if k != r.key { assert IndexedAt(t, k); }
    }
    assert Indexed(t');
  }

  /** The key attributes of an item to put survive cloning. */
  ghost predicate StableWrite(tables: Tables, op: WriteOp) {
    op.table in tables && Lower(op.kind) == "put" ==> StableKeys(tables[op.table].schema, op.item)
  }

  lemma ResolvedIsOwn(tables: Tables, op: WriteOp)
    requires Resolve(tables, op).Some? && op.table in tables && StableWrite(tables, op)
    ensures var r := Resolve(tables, op).value;
            r.item.Some? ==> ItemKey(tables[r.table].schema, r.item.value) == Some(r.key) && CloneItem(r.item.value) == r.item.value
  {
    if Lower(op.kind) == "put" {
      CloneKeepsKey(tables[op.table].schema, op.item);
      CloneIsStable(tables[op.table].schema, op.item);
    }
  }

  lemma {:induction false} ApplyAllKeepsIndex(tables: Tables, ops: seq<WriteOp>)
    requires AllIndexed(tables) && AllResolve(tables, ops) && forall op <- ops :: StableWrite(tables, op)
    ensures AllIndexed(Written(tables, ops))
  {
    if ops != [] {
      hide Resolve, ItemKey, AllIndexed, ApplyOne, StableWrite, CloneItem, Written, AllResolve;
      var n := |ops| - 1;
      assert ops[n] in ops && forall op <- ops[..n] :: op in ops;
      WrittenSnoc(tables, ops);
      ApplyAllKeepsIndex(tables, ops[..n]);
      ResolvedIsOwn(tables, ops[n]);
      ApplyOneKeepsIndex(Written(tables, ops[..n]), Resolve(tables, ops[n]).value);
    }
  }

  /** A transaction of well-typed puts and deletes keeps every table indexed by its items' own keys. */
  lemma TransactKeepsIndex(tables: Tables, ops: seq<WriteOp>)
    requires AllIndexed(tables) && Acceptable(tables, ops)
    requires forall op <- ops :: StableWrite(tables, op)
    ensures AllIndexed(Transact(tables, ops).value)
  {
    ApplyAllKeepsIndex(tables, ops);
  }

  /* ------------------------------ Order does not matter ------------------------------ */

  function Lookup(tables: Tables, table: string, key: string): Option<Item> {
    if table in tables then Stored(tables[table], key) else None
  }

  predicate Hits(r: Resolved, table: string, key: string) {
    r.table == table && r.key == key
  }

  lemma LookupAfterOne(tables: Tables, r: Resolved, table: string, key: string)
    requires r.table in tables
    ensures Lookup(ApplyOne(tables, r), table, key) == if Hits(r, table, key) then r.item else Lookup(tables, table, key)
  {
  }

  lemma {:induction false} UntouchedSlot(tables: Tables, rs: seq<Resolved>, table: string, key: string)
    requires forall x <- rs :: x.table in tables && !Hits(x, table, key)
    ensures Lookup(ApplyAll(tables, rs), table, key) == Lookup(tables, table, key)
  {
    hide ApplyOne, Lookup, Hits;
    if rs != [] {
      var n := |rs| - 1;
      assert rs[n] in rs && forall x <- rs[..n] :: x in rs;
      UntouchedSlot(tables, rs[..n], table, key);
      LookupAfterOne(ApplyAll(tables, rs[..n]), rs[n], table, key);
    }
  }

  /** The last operation on a slot decides. */
  lemma {:induction false} LastDecides(tables: Tables, rs: seq<Resolved>, i: nat, table: string, key: string)
    requires forall x <- rs :: x.table in tables
    requires i < |rs| && Hits(rs[i], table, key) && forall j :: i < j < |rs| ==> !Hits(rs[j], table, key)
    ensures Lookup(ApplyAll(tables, rs), table, key) == rs[i].item
  {
    hide ApplyOne, Lookup, Hits;
    var n := |rs| - 1;
    assert rs[n] in rs && forall x <- rs[..n] :: x in rs;
    var before := ApplyAll(tables, rs[..n]);
    assert ApplyAll(tables, rs) == ApplyOne(before, rs[n]);
    LookupAfterOne(before, rs[n], table, key);
    hide ApplyAll;
    if i < n { LastDecides(tables, rs[..n], i, table, key); }
  }

  /** The item at a slot after the transaction: what the operation on it stores, or what was there. */
  lemma {:induction false} LookupAfter(tables: Tables, rs: seq<Resolved>, table: string, key: string)
    requires forall x <- rs :: x.table in tables
    requires forall i, j :: 0 <= i < j < |rs| ==> !SameSlot(rs[i], rs[j])
    ensures (forall i :: 0 <= i < |rs| ==> !Hits(rs[i], table, key)) ==>
              Lookup(ApplyAll(tables, rs), table, key) == Lookup(tables, table, key)
    ensures forall i :: 0 <= i < |rs| && Hits(rs[i], table, key) ==> Lookup(ApplyAll(tables, rs), table, key) == rs[i].item
  {
    hide ApplyAll, Lookup;
    if forall i :: 0 <= i < |rs| ==> !Hits(rs[i], table, key) { UntouchedSlot(tables, rs, table, key); }
    forall i | 0 <= i < |rs| && Hits(rs[i], table, key) ensures Lookup(ApplyAll(tables, rs), table, key) == rs[i].item {
      forall j | i < j < |rs| ensures !Hits(rs[j], table, key) { assert !SameSlot(rs[i], rs[j]); }
      LastDecides(tables, rs, i, table, key);
    }
  }

  lemma {:induction false} TwoPlaces<T>(s: seq<T>, x: T) returns (a: nat, b: nat)
    requires multiset(s)[x] >= 2
    ensures a < b < |s| && s[a] == x && s[b] == x
  {
    var n := |s| - 1;
    assert s == s[..n] + [s[n]];
    if s[n] == x {
      assert x in multiset(s[..n]);
      a :| 0 <= a < n && s[..n][a] == x;
      b := n;
    } else {
      a, b := TwoPlaces(s[..n], x);
    }
  }

  lemma CountTwo<T>(s: seq<T>, i: nat, j: nat)
    requires i < j < |s| && s[i] == s[j]
    ensures multiset(s)[s[i]] >= 2
  {
    assert s == s[..j] + [s[j]] + s[j + 1..];
    assert s[..j][i] == s[i] && s[i] in multiset(s[..j]);
  }

  lemma PermutationKeepsNoClash(tables: Tables, ops: seq<WriteOp>, ops': seq<WriteOp>)
    requires multiset(ops) == multiset(ops') && NoClash(tables, ops)
    ensures NoClash(tables, ops')
  {
    forall i, j | 0 <= i < j < |ops'| ensures !Clash(tables, ops'[i], ops'[j]) {
      if ops'[i] == ops'[j] {
        CountTwo(ops', i, j);
        var a, b := TwoPlaces(ops, ops'[i]);
        assert !Clash(tables, ops[a], ops[b]);
      } else {
        assert ops'[i] in multiset(ops') && ops'[j] in multiset(ops');
        assert ops'[i] in ops && ops'[j] in ops;
        var a :| 0 <= a < |ops| && ops[a] == ops'[i];
        var b :| 0 <= b < |ops| && ops[b] == ops'[j];
        if a < b { assert !Clash(tables, ops[a], ops[b]); } else { assert !Clash(tables, ops[b], ops[a]); }
      }
    }
  }

  lemma SameMembers<T>(s: seq<T>, s': seq<T>)
    requires multiset(s) == multiset(s')
    ensures forall x :: x in s <==> x in s'
  {
    assert forall x :: x in s <==> x in multiset(s);
    assert forall x :: x in s' <==> x in multiset(s');
  }

  /** The transaction's result, success and tables, is the same for every order of its operations. */
  lemma OrderDoesNotMatter(tables: Tables, ops: seq<WriteOp>, ops': seq<WriteOp>)
    requires multiset(ops) == multiset(ops')
    ensures Transact(tables, ops) == Transact(tables, ops')
  {
    SameMembers(ops, ops');
    assert AllResolve(tables, ops) <==> AllResolve(tables, ops');
    if NoClash(tables, ops) { PermutationKeepsNoClash(tables, ops, ops'); }
    if NoClash(tables, ops') { PermutationKeepsNoClash(tables, ops', ops); }
    if Acceptable(tables, ops) {
      var t, t' := Transact(tables, ops).value, Transact(tables, ops').value;
      forall table, key ensures Lookup(t, table, key) == Lookup(t', table, key) {
        SameLookup(tables, ops, ops', table, key);
      }
      SameTables(t, t');
    }
  }

  lemma SameLookup(tables: Tables, ops: seq<WriteOp>, ops': seq<WriteOp>, table: string, key: string)
    requires Acceptable(tables, ops) && Acceptable(tables, ops') && forall x :: x in ops <==> x in ops'
    ensures Lookup(Transact(tables, ops).value, table, key) == Lookup(Transact(tables, ops').value, table, key)
  {
    hide ApplyAll, Resolve;
    var rs, rs' := ResolveAll(tables, ops), ResolveAll(tables, ops');
    LookupAfter(tables, rs, table, key);
    LookupAfter(tables, rs', table, key);
    if i :| 0 <= i < |rs| && Hits(rs[i], table, key) {
      assert ops[i] in ops';
      var j :| 0 <= j < |ops'| && ops'[j] == ops[i];
      assert rs'[j] == rs[i];
    } else {
      forall j | 0 <= j < |rs'| ensures !Hits(rs'[j], table, key) {
        assert ops'[j] in ops;
        var i :| 0 <= i < |ops| && ops[i] == ops'[j];
        assert rs[i] == rs'[j];
      }
    }
  }

  lemma SameTables(t: Tables, t': Tables)
    requires t.Keys == t'.Keys && forall n <- t :: t[n].name == t'[n].name && t[n].schema == t'[n].schema
    requires forall table, key :: Lookup(t, table, key) == Lookup(t', table, key)
    ensures t == t'
  {
    forall n | n in t ensures t[n] == t'[n] {
      forall k ensures (k in t[n].items <==> k in t'[n].items) && (k in t[n].items ==> t[n].items[k] == t'[n].items[k]) {
        assert Lookup(t, n, k) == Lookup(t', n, k);
      }
      assert t[n].items == t'[n].items;
    }
  }

  /* ------------------------------ Batches ------------------------------ */

  datatype BatchWrite = PutRequest(item: Item) | DeleteRequest(key: Item) | Malformed

  function OpFor(table: string, w: BatchWrite): WriteOp
    requires !w.Malformed?
  {
    if w.PutRequest? then WriteOp("put", table, w.item, map[]) else WriteOp("delete", table, map[], w.key)
  }

  function OpsFor(table: string, writes: seq<BatchWrite>): (r: seq<WriteOp>)
    requires Malformed !in writes
  {
    if writes == [] then []
    else OpsFor(table, writes[..|writes| - 1]) + [OpFor(table, writes[|writes| - 1])]
  }

  ghost predicate WellFormedBatch(request: map<string, seq<BatchWrite>>) {
    forall n <- request :: Malformed !in request[n]
  }

  /** The operations `BatchWriteItem` collects when it meets the tables in this order. */
  function Collect(request: map<string, seq<BatchWrite>>, order: seq<string>): seq<WriteOp>
    requires forall n <- order :: n in request && Malformed !in request[n]
  {
    if order == [] then [] else OpsFor(order[0], request[order[0]]) + Collect(request, order[1..])
  }

  lemma {:induction false} CollectSplit(request: map<string, seq<BatchWrite>>, a: seq<string>, b: seq<string>)
    requires forall n <- a + b :: n in request && Malformed !in request[n]
    ensures (forall n <- a :: n in a + b) && (forall n <- b :: n in a + b)
    ensures Collect(request, a + b) == Collect(request, a) + Collect(request, b)
  {
    if a == [] {
      assert a + b == b;
    } else {
      assert (a + b)[1..] == a[1..] + b;
      CollectSplit(request, a[1..], b);
    }
  }

  /** One table more. */
  lemma CollectSnoc(request: map<string, seq<BatchWrite>>, order: seq<string>, n: string)
    requires (forall x <- order :: x in request && Malformed !in request[x]) && n in request && Malformed !in request[n]
    ensures forall x <- order + [n] :: x in request && Malformed !in request[x]
    ensures Collect(request, order + [n]) == Collect(request, order) + OpsFor(n, request[n])
  {
    CollectSplit(request, order, [n]);
    assert Collect(request, [n]) == OpsFor(n, request[n]) + Collect(request, []) == OpsFor(n, request[n]);
  }

  lemma RemoveOne(s: seq<string>, s': seq<string>, i: nat)
    requires s != [] && i < |s'| && s'[i] == s[0] && multiset(s) == multiset(s')
    ensures multiset(s[1..]) == multiset(s'[..i] + s'[i + 1..])
  {
    var one := multiset{s[0]};
    assert multiset(s) == one + multiset(s[1..]) by { assert s == [s[0]] + s[1..]; }
    assert multiset(s') == one + multiset(s'[..i] + s'[i + 1..]) by { assert s' == s'[..i] + [s'[i]] + s'[i + 1..]; }
    Cancel(one, multiset(s[1..]), multiset(s'[..i] + s'[i + 1..]));
  }

  lemma Cancel(one: multiset<string>, a: multiset<string>, b: multiset<string>)
    requires one + a == one + b
    ensures a == b
  {
    assert (one + a) - one == a && (one + b) - one == b;
  }

  lemma {:induction false} CollectPermutes(request: map<string, seq<BatchWrite>>, order: seq<string>, order': seq<string>)
    requires (forall n <- order :: n in request) && WellFormedBatch(request) && multiset(order) == multiset(order')
    ensures forall n <- order' :: n in request
    ensures multiset(Collect(request, order)) == multiset(Collect(request, order'))
  {
    SameMembers(order, order');
    if order != [] {
      var x := order[0];
      assert x in order';
      var i :| 0 <= i < |order'| && order'[i] == x;
      var a, b := order'[..i], order'[i + 1..];
      RemoveOne(order, order', i);
      assert order' == a + ([x] + b);
      CollectPermutes(request, order[1..], a + b);
      CollectSplit(request, a, [x] + b);
      CollectSplit(request, a, b);
      assert ([x] + b)[1..] == b;
    }
  }

  /** An order in which a map may yield the tables of a request. */
  ghost predicate IsOrder(request: map<string, seq<BatchWrite>>, order: seq<string>) {
    multiset(order) == multiset(request.Keys)
  }

  lemma OrderMembers(request: map<string, seq<BatchWrite>>, order: seq<string>)
    requires IsOrder(request, order)
    ensures forall n :: n in order <==> n in request
  {
    assert forall n :: n in order <==> n in multiset(order);
    assert forall n :: n in multiset(request.Keys) <==> n in request;
  }

  /** `BatchWriteItem` meets the tables in whatever order the map yields them, and still has one result. */
  lemma BatchHasOneResult(tables: Tables, request: map<string, seq<BatchWrite>>, order: seq<string>, order': seq<string>)
    requires WellFormedBatch(request) && IsOrder(request, order) && IsOrder(request, order')
    ensures (forall n <- order :: n in request) && (forall n <- order' :: n in request)
    ensures |Collect(request, order)| == |Collect(request, order')|
    ensures Transact(tables, Collect(request, order)) == Transact(tables, Collect(request, order'))
  {
    OrderMembers(request, order);
    OrderMembers(request, order');
    CollectPermutes(request, order, order');
    var ops, ops' := Collect(request, order), Collect(request, order');
    assert |ops| == |multiset(ops)| == |multiset(ops')| == |ops'|;
    OrderDoesNotMatter(tables, ops, ops');
  }
}
