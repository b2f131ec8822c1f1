/**
 DynamoDB tables (internal/state/dynamodb.go): items indexed by an encoding of their key attributes.
 */
module DynamoTables {
  import opened Common
  import opened DynamoValues

  datatype KeyElement = KeyElement(name: string, kind: string)

  datatype Table = Table(name: string, schema: seq<KeyElement>, items: map<string, Item>)

  const SEPARATOR := '\U{0001}'

  /* ------------------------------ Keys ------------------------------ */

  datatype Scalar = S(text: string) | N(text: string) | B(text: string)

  /** The scalar that `dynamoScalarKey` reads: S before N before B. */
  function KeyScalar(v: AttributeValue): Option<Scalar> {
    if v.s.Some? then Some(S(v.s.value))
    else if v.n.Some? then Some(N(v.n.value))
    else if v.b.Some? then Some(B(v.b.value))
    else None
  }

  function Tag(k: Scalar): char {
    match k
    case S(_) => 'S'
    case N(_) => 'N'
    case B(_) => 'B'
  }

  /** `dynamoScalarKey`. */
  function EncodeScalar(k: Scalar): string {
    [Tag(k), '\0'] + k.text
  }

  function Prefix(e: KeyElement): string {
    e.kind + ['\0'] + e.name + ['\0']
  }

  /** The primary key of an item: the scalars of its key attributes, in schema order. */
  function PrimaryKey(schema: seq<KeyElement>, item: Item): (k: Option<seq<Scalar>>)
    ensures k.Some? ==> |k.value| == |schema|
  {
    if schema == [] then Some([])
    else if schema[0].name !in item || KeyScalar(item[schema[0].name]).None? then None
    else
      var rest := PrimaryKey(schema[1..], item);
      if rest.None? then None else Some([KeyScalar(item[schema[0].name]).value] + rest.value)
  }

  /** The parts joined by 0x01. */
  function Encode(schema: seq<KeyElement>, key: seq<Scalar>): string
    requires |schema| == |key|
    decreases |schema|, 1
  {
    if schema == [] then "" else Prefix(schema[0]) + Tail(schema, key)
  }

  /** An encoding without the prefix that every key of the schema starts with. */
  function Tail(schema: seq<KeyElement>, key: seq<Scalar>): string
    requires |schema| == |key| > 0
    decreases |schema|, 0
  {
    if |schema| == 1 then EncodeScalar(key[0]) else EncodeScalar(key[0]) + [SEPARATOR] + Encode(schema[1..], key[1..])
  }

  /** `dynamoItemKey`. */
  function ItemKey(schema: seq<KeyElement>, item: Item): Option<string> {
    var key := PrimaryKey(schema, item);
    if key.None? then None else Some(Encode(schema, key.value))
  }

  /** Only the last component may hold the separator. */
  predicate Admissible(key: seq<Scalar>) {
    forall i :: 0 <= i < |key| - 1 ==> SEPARATOR !in key[i].text
  }

  lemma {:induction false} SameTails(schema: seq<KeyElement>, a: seq<Scalar>, b: seq<Scalar>)
    requires |schema| == |a| == |b| > 0 && Encode(schema, a) == Encode(schema, b)
    ensures Tail(schema, a) == Tail(schema, b)
  {
    hide Tail, Prefix;
    var p := Prefix(schema[0]);
    assert (p + Tail(schema, a))[|p|..] == Tail(schema, a) && (p + Tail(schema, b))[|p|..] == Tail(schema, b);
  }

  lemma ScalarInjective(x: Scalar, y: Scalar)
    requires EncodeScalar(x) == EncodeScalar(y)
    ensures x == y
  {
    assert EncodeScalar(x)[0] == Tag(x) && EncodeScalar(y)[0] == Tag(y);
    assert EncodeScalar(x)[2..] == x.text && EncodeScalar(y)[2..] == y.text;
  }

  /** Admissible keys have distinct encodings. */
  lemma {:induction false} EncodeInjective(schema: seq<KeyElement>, a: seq<Scalar>, b: seq<Scalar>)
    requires |schema| == |a| == |b| && Admissible(a) && Admissible(b)
    requires Encode(schema, a) == Encode(schema, b)
    ensures a == b
  {
    if schema != [] {
      SameTails(schema, a, b);
      hide Encode, EncodeScalar;
      if |schema| > 1 {
        CutUnique(SEPARATOR, EncodeScalar(a[0]), Encode(schema[1..], a[1..]), EncodeScalar(b[0]), Encode(schema[1..], b[1..]));
        EncodeInjective(schema[1..], a[1..], b[1..]);
      }
      ScalarInjective(a[0], b[0]);
      assert a == [a[0]] + a[1..] && b == [b[0]] + b[1..];
    }
  }

  /** What stands between two string components. */
  function Mark(schema: seq<KeyElement>): string
    requires |schema| == 2
  {
    [SEPARATOR] + Prefix(schema[1]) + ['S', '\0']
  }

  /** Without that, every table with two key attributes has keys that collide. */
  lemma SeparatorCollides(schema: seq<KeyElement>, x: string, y: string, z: string)
    requires |schema| == 2
    ensures var mark := Mark(schema);
            var a, b := [S(x), S(y + mark + z)], [S(x + mark + y), S(z)];
            a != b && Encode(schema, a) == Encode(schema, b)
  {
    hide Encode, Prefix;
    var mark, p := Mark(schema), Prefix(schema[0]) + ['S', '\0'];
    TwoParts(schema, x, y + mark + z);
    TwoParts(schema, x + mark + y, z);
    assert |x + mark + y| > |x|;
    assert [S(x), S(y + mark + z)][0].text != [S(x + mark + y), S(z)][0].text;
  }

  lemma {:induction false} TwoParts(schema: seq<KeyElement>, x: string, y: string)
    requires |schema| == 2
    ensures Encode(schema, [S(x), S(y)]) == (Prefix(schema[0]) + ['S', '\0']) + x + Mark(schema) + y
  {
    hide Prefix;
    var key := [S(x), S(y)];
    var p, q := Prefix(schema[0]), Prefix(schema[1]);
    assert schema[1..] == [schema[1]] && key[1..] == [S(y)];
    assert Encode(schema[1..], key[1..]) == q + EncodeScalar(S(y));
    assert EncodeScalar(S(x)) == ['S', '\0'] + x && EncodeScalar(S(y)) == ['S', '\0'] + y;
    hide Encode, EncodeScalar;
    assert p + ((['S', '\0'] + x) + [SEPARATOR] + (q + (['S', '\0'] + y))) == (p + ['S', '\0']) + x + Mark(schema) + y;
  }

  /* ------------------------------ Values with several members ------------------------------ */

  /** No member that the encoder prefers hides the scalar that the key is read from. */
  predicate KeyStable(v: AttributeValue) {
    var early := v.boolean.Some? || v.bs.Some? || v.l.List? || v.m.Map?;
    if v.s.Some? then v.b.None? && !early && v.n.None? && v.ns.None? && v.isNull.None?
    else if v.n.Some? then v.b.None? && !early
    else true
  }

  /** Cloning keeps the key scalar exactly for such values: a key attribute sent as S and N at once is
      indexed under S and stored as N. */
  lemma CloneKeepsKeyScalar(v: AttributeValue)
    requires KeyScalar(v).Some?
    ensures KeyScalar(Clone(v)) == KeyScalar(v) <==> KeyStable(v)
  {
  }

  predicate StableKeys(schema: seq<KeyElement>, item: Item) {
    forall e <- schema :: e.name in item ==> KeyStable(item[e.name])
  }

  lemma {:induction false} CloneKeepsKey(schema: seq<KeyElement>, item: Item)
    requires StableKeys(schema, item)
    ensures PrimaryKey(schema, CloneItem(item)) == PrimaryKey(schema, item) || PrimaryKey(schema, item).None?
  {
    if schema != [] {
      CloneKeepsKey(schema[1..], item);
    }
  }

  lemma {:induction false} CloneIsStable(schema: seq<KeyElement>, item: Item)
    ensures StableKeys(schema, CloneItem(item)) && CloneItem(CloneItem(item)) == CloneItem(item)
  {
    forall name | name in item ensures Clone(Clone(item[name])) == Clone(item[name]) && KeyStable(Clone(item[name])) {
      ClonesAreSingle(item[name]);
      CloneKeepsIff(Clone(item[name]));
    }
  }

  /* ------------------------------ Item operations ------------------------------ */

  datatype Error = NotFound | ConditionFailed | Validation

  /** A compiled condition; `None` when the request has none. */
  type Condition = Option<(Item, bool) -> bool>

  predicate Passes(condition: Condition, old_: Option<Item>) {
    condition.None? || condition.value(if old_.Some? then old_.value else map[], old_.Some?)
  }

  function Stored(t: Table, key: string): Option<Item> {
    if key in t.items then Some(t.items[key]) else None
  }

  function Get(t: Table, key: Item): Result<Option<Item>, Error> {
    var k := ItemKey(t.schema, key);
    if k.None? then Err(Validation) else Ok(Stored(t, k.value))
  }

  /** The table after a put. */
  function Put(t: Table, item: Item, condition: Condition): Result<Table, Error> {
    var k := ItemKey(t.schema, item);
    if k.None? then Err(Validation)
    else if !Passes(condition, Stored(t, k.value)) then Err(ConditionFailed)
    else Ok(t.(items := t.items[k.value := CloneItem(item)]))
  }

  function Delete(t: Table, key: Item, condition: Condition): Result<Table, Error> {
    var k := ItemKey(t.schema, key);
    if k.None? then Err(Validation)
    else if !Passes(condition, Stored(t, k.value)) then Err(ConditionFailed)
    else Ok(t.(items := t.items - {k.value}))
  }

  type Updater = Item -> Result<Item, Error>

  /** The item an update starts from: the stored one, or a clone of the key. */
  function Base(t: Table, key: Item): Item
    requires ItemKey(t.schema, key).Some?
  {
    var k := ItemKey(t.schema, key).value;
    if k in t.items then t.items[k] else CloneItem(key)
  }

  function Update(t: Table, key: Item, condition: Condition, update: Updater): Result<Table, Error> {
    var k := ItemKey(t.schema, key);
    if k.None? then Err(Validation)
    else if !Passes(condition, Stored(t, k.value)) then Err(ConditionFailed)
    else
      var next := update(Base(t, key));
      if next.Err? then Err(next.error)
      else if ItemKey(t.schema, next.value) != k then Err(Validation)
      else Ok(t.(items := t.items[k.value := CloneItem(next.value)]))
  }

  /** Every item is stored under the encoding of its own key attributes, in cloned form. */
  ghost predicate Indexed(t: Table) {
    forall k <- t.items :: IndexedAt(t, k)
  }

  ghost predicate IndexedAt(t: Table, k: string)
    requires k in t.items
  {
    ItemKey(t.schema, t.items[k]) == Some(k) && CloneItem(t.items[k]) == t.items[k]
  }

  /** A put keeps the index exactly when its key attributes survive cloning. */
  lemma PutKeepsIndex(t: Table, item: Item, condition: Condition)
    requires Indexed(t) && Put(t, item, condition).Ok?
    ensures Indexed(Put(t, item, condition).value) <==> ItemKey(t.schema, CloneItem(item)) == ItemKey(t.schema, item)
    ensures StableKeys(t.schema, item) ==> Indexed(Put(t, item, condition).value)
  {
    var t', k := Put(t, item, condition).value, ItemKey(t.schema, item).value;
    CloneIsStable(t.schema, item);
    if StableKeys(t.schema, item) {
      CloneKeepsKey(t.schema, item);
    }
    assert k in t'.items && (IndexedAt(t', k) <==> ItemKey(t.schema, CloneItem(item)) == Some(k));
    forall j | j in t'.items && j != k ensures IndexedAt(t', j) {
      assert IndexedAt(t, j);
    }
  }

  lemma {:induction false} SingleKey(e: KeyElement, item: Item)
    requires e.name in item && KeyScalar(item[e.name]).Some?
    ensures PrimaryKey([e], item) == Some([KeyScalar(item[e.name]).value])
  {
    assert [e][1..] == [] && PrimaryKey([], item) == Some([]);
    assert [KeyScalar(item[e.name]).value] + [] == [KeyScalar(item[e.name]).value];
  }

  /** A key attribute sent as S and N at once breaks the index: the item is found under S "a" but
      stored with N "1". */
  lemma TwoMembersBreakIndex()
    ensures var v := NOTHING.(s := Some("a"), n := Some("1"));
            var t := Table("t", [KeyElement("k", "HASH")], map[]);
            Indexed(t) && Put(t, map["k" := v], None).Ok? && !Indexed(Put(t, map["k" := v], None).value)
  {
    var v := NOTHING.(s := Some("a"), n := Some("1"));
    var t, item := Table("t", [KeyElement("k", "HASH")], map[]), map["k" := v];
    SingleKey(t.schema[0], item);
    SingleKey(t.schema[0], CloneItem(item));
    assert PrimaryKey(t.schema, item) == Some([S("a")]) && PrimaryKey(t.schema, CloneItem(item)) == Some([N("1")]);
    hide PrimaryKey;
    PutKeepsIndex(t, item, None);
    hide Indexed;
    assert Admissible([S("a")]) && Admissible([N("1")]);
    if Encode(t.schema, [S("a")]) == Encode(t.schema, [N("1")]) {
      EncodeInjective(t.schema, [S("a")], [N("1")]);
    }
  }

  lemma DeleteKeepsIndex(t: Table, key: Item, condition: Condition)
    requires Indexed(t) && Delete(t, key, condition).Ok?
    ensures Indexed(Delete(t, key, condition).value)
  {
    var t' := Delete(t, key, condition).value;
    forall j | j in t'.items ensures IndexedAt(t', j) {
      assert IndexedAt(t, j);
    }
  }

  /** So does an update, for the item it computes from the base it is given. */
  lemma UpdateKeepsIndex(t: Table, key: Item, condition: Condition, update: Updater)
    requires Indexed(t) && Update(t, key, condition, update).Ok?
    ensures var next := update(Base(t, key)).value;
            && (Indexed(Update(t, key, condition, update).value) <==> ItemKey(t.schema, CloneItem(next)) == ItemKey(t.schema, next))
            && (StableKeys(t.schema, next) ==> Indexed(Update(t, key, condition, update).value))
  {
    hide ItemKey, Indexed, StableKeys;
    PutKeepsIndex(t, update(Base(t, key)).value, None);
  }

  /** `next` has the key attributes of `base`. */
  ghost predicate KeepsKeys(schema: seq<KeyElement>, base: Item, next: Item) {
    forall e <- schema :: (e.name in next <==> e.name in base) && (e.name in base ==> next[e.name] == base[e.name])
  }

  lemma {:induction false} SamePrimaryKey(schema: seq<KeyElement>, base: Item, next: Item)
    requires KeepsKeys(schema, base, next)
    ensures PrimaryKey(schema, next) == PrimaryKey(schema, base)
  {
    if schema != [] {
      assert schema[0] in schema && forall e <- schema[1..] :: e in schema;
      SamePrimaryKey(schema[1..], base, next);
    }
  }

  /** An updater that passes the key attributes through (SET, REMOVE and ADD of other attributes)
      computes an item whose keys survive cloning, since its base is a clone. */
  lemma PassThroughIsStable(t: Table, key: Item, next: Item)
    requires Indexed(t) && ItemKey(t.schema, key).Some? && KeepsKeys(t.schema, Base(t, key), next)
    ensures StableKeys(t.schema, next) && PrimaryKey(t.schema, next) == PrimaryKey(t.schema, Base(t, key))
  {
    var base, k := Base(t, key), ItemKey(t.schema, key).value;
    SamePrimaryKey(t.schema, base, next);
    CloneIsStable(t.schema, key);
    if k in t.items {
      assert IndexedAt(t, k);
      CloneIsStable(t.schema, t.items[k]);
    }
    assert StableKeys(t.schema, base);
  }

  /* ------------------------------ Refinement ------------------------------ */

  function KeyAt(t: Table, k: string): seq<Scalar>
    requires k in t.items
  {
    var key := PrimaryKey(t.schema, t.items[k]);
    if key.Some? then key.value else []
  }

  /** The table as a plain map from primary keys to items. */
  ghost function View(t: Table): map<seq<Scalar>, Item> {
    map key | key in (set k | k in t.items :: KeyAt(t, k)) && |key| == |t.schema| && Encode(t.schema, key) in t.items
      :: t.items[Encode(t.schema, key)]
  }

  /** Indexed, with admissible keys only. */
  ghost predicate Clean(t: Table) {
    Indexed(t) && forall k <- t.items :: Admissible(KeyAt(t, k))
  }

  /** Looking up by encoding is looking up by primary key. */
  lemma ViewLookup(t: Table, key: seq<Scalar>)
    requires Clean(t) && |key| == |t.schema| && Admissible(key)
    ensures key in View(t) <==> Encode(t.schema, key) in t.items
    ensures key in View(t) ==> View(t)[key] == t.items[Encode(t.schema, key)]
  {
    var k := Encode(t.schema, key);
    if k in t.items {
      assert IndexedAt(t, k);
      EncodeInjective(t.schema, KeyAt(t, k), key);
    }
  }

  lemma ViewKeys(t: Table, key: seq<Scalar>)
    requires Clean(t) && key in View(t)
    ensures |key| == |t.schema| && Admissible(key) && PrimaryKey(t.schema, View(t)[key]) == Some(key)
  {
    var k :| k in t.items && KeyAt(t, k) == key;
    assert IndexedAt(t, k);
  }

  /** The refinement: get, put and delete are lookup, update and removal on the plain map. */
  lemma GetRefines(t: Table, key: Item)
    requires Clean(t) && PrimaryKey(t.schema, key).Some? && Admissible(PrimaryKey(t.schema, key).value)
    ensures var p := PrimaryKey(t.schema, key).value;
            Get(t, key) == Ok(if p in View(t) then Some(View(t)[p]) else None)
  {
    ViewLookup(t, PrimaryKey(t.schema, key).value);
  }

  lemma PutRefines(t: Table, item: Item, condition: Condition)
    requires Clean(t) && StableKeys(t.schema, item) && Put(t, item, condition).Ok?
    requires Admissible(PrimaryKey(t.schema, item).value)
    ensures var t', p := Put(t, item, condition).value, PrimaryKey(t.schema, item).value;
            Clean(t') && View(t') == View(t)[p := CloneItem(item)]
  {
    hide View, Encode, PrimaryKey, Indexed;
    var t', p := Put(t, item, condition).value, PrimaryKey(t.schema, item).value;
    PutKeepsIndex(t, item, condition);
    CloneKeepsKey(t.schema, item);
    forall j | j in t'.items ensures Admissible(KeyAt(t', j)) {
      if j != Encode(t.schema, p) { assert KeyAt(t', j) == KeyAt(t, j); }
    }
    var expected := View(t)[p := CloneItem(item)];
    assert expected - {p} == View(t) - {p};
    SameView(t', expected, t, p);
  }

  lemma DeleteRefines(t: Table, key: Item, condition: Condition)
    requires Clean(t) && Delete(t, key, condition).Ok? && Admissible(PrimaryKey(t.schema, key).value)
    ensures var t', p := Delete(t, key, condition).value, PrimaryKey(t.schema, key).value;
            Clean(t') && View(t') == View(t) - {p}
  {
    hide View, Encode, PrimaryKey, Indexed;
    var t', p := Delete(t, key, condition).value, PrimaryKey(t.schema, key).value;
    DeleteKeepsIndex(t, key, condition);
    forall j | j in t'.items ensures Admissible(KeyAt(t', j)) {
      assert KeyAt(t', j) == KeyAt(t, j);
    }
    var expected := View(t) - {p};
    assert expected - {p} == View(t) - {p};
    SameView(t', expected, t, p);
  }

  lemma UpdateRefines(t: Table, key: Item, condition: Condition, update: Updater, next: Item)
    requires Clean(t) && Update(t, key, condition, update).Ok?
    requires update(Base(t, key)) == Ok(next)
    requires StableKeys(t.schema, next) && Admissible(PrimaryKey(t.schema, key).value) && Admissible(PrimaryKey(t.schema, next).value)
    ensures var t', p := Update(t, key, condition, update).value, PrimaryKey(t.schema, key).value;
            Clean(t') && View(t') == View(t)[p := CloneItem(next)]
  {
    hide View, Encode, PrimaryKey, Indexed, Clean;
    EncodeInjective(t.schema, PrimaryKey(t.schema, key).value, PrimaryKey(t.schema, next).value);
    PutRefines(t, next, None);
  }

  /** Two views agree when they agree on `p` and the tables agree under every other encoding. */
  lemma SameView(t': Table, expected: map<seq<Scalar>, Item>, t: Table, p: seq<Scalar>)
    requires Clean(t) && Clean(t') && t'.schema == t.schema && |p| == |t.schema| && Admissible(p)
    requires forall j :: j != Encode(t.schema, p) ==> Stored(t', j) == Stored(t, j)
    requires expected - {p} == View(t) - {p}
    requires (p in expected <==> Encode(t.schema, p) in t'.items)
    requires p in expected ==> expected[p] == t'.items[Encode(t.schema, p)]
    ensures View(t') == expected
  {
    hide View, Encode, Clean;
    forall key ensures key in View(t') <==> key in expected {
      SameViewAt(t', expected, t, p, key);
    }
    forall key | key in View(t') ensures View(t')[key] == expected[key] {
      SameViewAt(t', expected, t, p, key);
    }
  }

  lemma SameViewAt(t': Table, expected: map<seq<Scalar>, Item>, t: Table, p: seq<Scalar>, key: seq<Scalar>)
    requires Clean(t) && Clean(t') && t'.schema == t.schema && |p| == |t.schema| && Admissible(p)
    requires forall j :: j != Encode(t.schema, p) ==> Stored(t', j) == Stored(t, j)
    requires expected - {p} == View(t) - {p}
    requires (p in expected <==> Encode(t.schema, p) in t'.items)
    requires p in expected ==> expected[p] == t'.items[Encode(t.schema, p)]
    ensures key in View(t') <==> key in expected
    ensures key in View(t') ==> View(t')[key] == expected[key]
  {
    hide View, Encode, Clean;
    if key == p {
      ViewLookup(t', p);
    } else {
      assert key in expected <==> key in (expected - {p});
      assert key in View(t) <==> key in (View(t) - {p});
      if key in View(t') || key in View(t) {
        if key in View(t') { ViewKeys(t', key); } else { ViewKeys(t, key); }
        ViewLookup(t', key);
        ViewLookup(t, key);
        var j := Encode(t.schema, key);
        if j == Encode(t.schema, p) {
          EncodeInjective(t.schema, key, p);
        }
        assert Stored(t', j) == Stored(t, j);
      }
      if key in expected { assert (expected - {p})[key] == expected[key] && (View(t) - {p})[key] == View(t)[key]; }
    }
  }
}
