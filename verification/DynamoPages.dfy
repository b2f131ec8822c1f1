/** Query and scan pages (`DynamoListItems`, `reverseDynamoItems`, `selectDynamoItems`). */
module DynamoPages {
  import opened Common
  import opened DynamoValues
  import opened DynamoTables

  /** A compiled query: key condition, filter and projection; a missing condition admits everything. */
  datatype Query = Query(schema: seq<KeyElement>, keyCondition: Condition, filter: Condition, project: Item -> Item)

  predicate Admits(c: Condition, item: Item) {
    c.None? || c.value(item, true)
  }

  function AttributeOf(item: Item, name: string): AttributeValue {
    if name in item then item[name] else NOTHING
  }

  /** `dynamoKeysEqual`: the encodings of the key attributes agree. */
  predicate KeysEqual(schema: seq<KeyElement>, a: Item, b: Item) {
    forall e <- schema :: Clone(AttributeOf(a, e.name)) == Clone(AttributeOf(b, e.name))
  }

  /** `dynamoPrimaryKey`. */
  function KeyPart(schema: seq<KeyElement>, item: Item): Item {
    map name | name in item && name in (set e | e in schema :: e.name) :: item[name]
  }

  /** A page: its items, how many it scanned, and where it stopped early. */
  datatype Page = Page(items: seq<Item>, scanned: nat, stop: Option<nat>)

  function Shown(q: Query, item: Item): seq<Item> {
    if Admits(q.filter, item) then [q.project(item)] else []
  }

  /** The page that starts at index `i`; `limit` 0 means no limit. */
  function PageFrom(q: Query, items: seq<Item>, i: nat, limit: nat): (p: Page)
    ensures p.stop.Some? ==> limit > 0 && i <= p.stop.value < |items| - 1 && p.scanned == limit
    decreases |items| - i
  {
    if i >= |items| then Page([], 0, None)
    else if !Admits(q.keyCondition, items[i]) then PageFrom(q, items, i + 1, limit)
    else if limit == 1 then Page(Shown(q, items[i]), 1, if i < |items| - 1 then Some(i) else None)
    else
      var rest := PageFrom(q, items, i + 1, if limit == 0 then 0 else limit - 1);
      Page(Shown(q, items[i]) + rest.items, 1 + rest.scanned, rest.stop)
  }

  /** Index of the first item with the given key; |items| if there is none. */
  function FindKey(schema: seq<KeyElement>, items: seq<Item>, key: Item): (i: nat)
    ensures i <= |items|
    ensures i < |items| ==> KeysEqual(schema, items[i], key)
    ensures forall j :: 0 <= j < i ==> !KeysEqual(schema, items[j], key)
  {
    if items == [] || KeysEqual(schema, items[0], key) then 0 else 1 + FindKey(schema, items[1..], key)
  }

  function StartIndex(schema: seq<KeyElement>, items: seq<Item>, start: Item): nat {
    if start == map[] then 0
    else
      var i := FindKey(schema, items, start);
      if i == |items| then i else i + 1
  }

  /** One item of a page. */
  lemma PageStep(q: Query, items: seq<Item>, i: nat, limit: nat)
    requires i < |items|
    ensures var p, item := PageFrom(q, items, i, limit), items[i];
            if !Admits(q.keyCondition, item) then p == PageFrom(q, items, i + 1, limit)
            else if limit == 1 then p == Page(Shown(q, item), 1, if i < |items| - 1 then Some(i) else None)
            else
              var rest := PageFrom(q, items, i + 1, if limit == 0 then 0 else limit - 1);
              p == Page(Shown(q, item) + rest.items, 1 + rest.scanned, rest.stop)
  {
  }

  lemma PageEnd(q: Query, items: seq<Item>, i: nat, limit: nat)
    requires i >= |items|
    ensures PageFrom(q, items, i, limit) == Page([], 0, None)
  {
  }

  /** At `index`, with `scanned` items seen and `result` collected, the loop is on its way to `page`. */
  ghost predicate Ahead(q: Query, items: seq<Item>, limit: nat, page: Page, index: nat, scanned: nat, result: seq<Item>) {
    && index <= |items| && (limit > 0 ==> scanned < limit)
    && var rest := PageFrom(q, items, index, if limit == 0 then 0 else limit - scanned);
       page == Page(result + rest.items, scanned + rest.scanned, rest.stop)
  }

  /** One iteration. */
  lemma AheadStep(q: Query, items: seq<Item>, limit: nat, page: Page, index: nat, scanned: nat, result: seq<Item>)
    requires index < |items| && Ahead(q, items, limit, page, index, scanned, result)
    ensures var item := items[index];
            if !Admits(q.keyCondition, item) then Ahead(q, items, limit, page, index + 1, scanned, result)
            else if limit > 0 && scanned + 1 >= limit then
              page == Page(result + Shown(q, item), scanned + 1, if index < |items| - 1 then Some(index) else None)
            else Ahead(q, items, limit, page, index + 1, scanned + 1, result + Shown(q, item))
  {
    hide Shown, Admits;
    var left := if limit == 0 then 0 else limit - scanned;
    if Admits(q.keyCondition, items[index]) && left != 1 {
      var rest := PageFrom(q, items, index + 1, if left == 0 then 0 else left - 1);
      assert result + (Shown(q, items[index]) + rest.items) == result + Shown(q, items[index]) + rest.items;
    }
  }

  lemma AheadStart(q: Query, items: seq<Item>, limit: nat, index: nat)
    requires index <= |items|
    ensures Ahead(q, items, limit, PageFrom(q, items, index, limit), index, 0, [])
  {
    assert [] + PageFrom(q, items, index, limit).items == PageFrom(q, items, index, limit).items;
  }

  lemma AheadEnd(q: Query, items: seq<Item>, limit: nat, page: Page, scanned: nat, result: seq<Item>)
    requires Ahead(q, items, limit, page, |items|, scanned, result)
    ensures page == Page(result, scanned, None)
  {
    assert result + [] == result;
  }

  /* ------------------------------ What a page holds ------------------------------ */

  /** The key condition admits the item. */
  predicate Matches(q: Query, item: Item) {
    q.keyCondition.None? || q.keyCondition.value(item, true)
  }

  /** So does the filter. */
  predicate Answers(q: Query, item: Item) {
    Matches(q, item) && (q.filter.None? || q.filter.value(item, true))
  }

  /** How many items from `lo` up to `hi` match, or pass the filter too. */
  function Count(q: Query, items: seq<Item>, lo: nat, hi: nat, filtered: bool): (n: nat)
    requires lo <= hi <= |items|
  {
    if lo == hi then 0
    else
      var last := if filtered then Answers(q, items[hi - 1]) else Matches(q, items[hi - 1]);
      Count(q, items, lo, hi - 1, filtered) + if last then 1 else 0
  }

  /** The page ends at `end`: before it fewer than `limit` items match, and it ends early only behind
      the one that makes up the limit. */
  ghost predicate EndsAt(q: Query, items: seq<Item>, lo: nat, limit: nat, end: nat) {
    && lo <= end <= |items|
    && (limit > 0 ==> forall k: nat :: lo <= k < end ==> Count(q, items, lo, k, false) < limit)
    && (end < |items| ==> limit > 0 && Count(q, items, lo, end, false) == limit)
  }

  /** The items that pass, each in its place as projected, and the number of those that match. */
  ghost predicate Holds(q: Query, items: seq<Item>, lo: nat, end: nat, result: seq<Item>, scanned: nat)
    requires lo <= end <= |items|
  {
    && scanned == Count(q, items, lo, end, false) && |result| == Count(q, items, lo, end, true)
    && forall k: nat :: lo <= k < end && Answers(q, items[k]) ==>
         Count(q, items, lo, k, true) < |result| && result[Count(q, items, lo, k, true)] == q.project(items[k])
  }

  /** Exactly the key attributes of the item. */
  ghost predicate IsKeyOf(schema: seq<KeyElement>, item: Item, key: Item) {
    && (forall name :: name in key <==> name in item && exists e <- schema :: e.name == name)
    && (forall name <- key :: key[name] == item[name])
  }

  lemma KeyPartIsKey(schema: seq<KeyElement>, item: Item)
    ensures IsKeyOf(schema, item, KeyPart(schema, item))
  {
  }

  /** `i` is the first item of that key. */
  ghost predicate FirstWith(schema: seq<KeyElement>, items: seq<Item>, key: Item, i: nat) {
    i < |items| && KeysEqual(schema, items[i], key) && forall j :: 0 <= j < i ==> !KeysEqual(schema, items[j], key)
  }

  /** Without a start key the page starts at the first item, with one behind the first item of that
      key, and nowhere if there is none. */
  lemma StartIs(schema: seq<KeyElement>, items: seq<Item>, start: Item, i: nat)
    ensures start == map[] ==> StartIndex(schema, items, start) == 0
    ensures start != map[] && (forall j :: 0 <= j < |items| ==> !KeysEqual(schema, items[j], start)) ==>
              StartIndex(schema, items, start) == |items|
    ensures start != map[] && FirstWith(schema, items, start, i) ==> StartIndex(schema, items, start) == i + 1
  {
    hide KeysEqual;
  }

  /** Keys whose attributes have one member each are equal exactly when the attributes are the same. */
  lemma KeysEqualIff(schema: seq<KeyElement>, a: Item, b: Item)
    requires forall e <- schema :: e.name in a && e.name in b && Single(a[e.name]) && Single(b[e.name])
    ensures KeysEqual(schema, a, b) <==> forall e <- schema :: a[e.name] == b[e.name]
  {
    forall e | e in schema ensures Clone(a[e.name]) == a[e.name] && Clone(b[e.name]) == b[e.name] {
      SingleIsKept(a[e.name]);
      SingleIsKept(b[e.name]);
    }
  }

  lemma {:induction false} CountFromFront(q: Query, items: seq<Item>, lo: nat, hi: nat, filtered: bool)
    requires lo < hi <= |items|
    ensures Count(q, items, lo, hi, filtered) ==
            (if (if filtered then Answers(q, items[lo]) else Matches(q, items[lo])) then 1 else 0) + Count(q, items, lo + 1, hi, filtered)
  {
    if lo + 1 < hi { CountFromFront(q, items, lo, hi - 1, filtered); }
  }

  lemma LastOfPage(q: Query, items: seq<Item>, i: nat)
    requires i < |items| && Matches(q, items[i])
    ensures EndsAt(q, items, i, 1, i + 1) && Holds(q, items, i, i + 1, Shown(q, items[i]), 1)
  {
    assert Count(q, items, i, i, false) == 0 == Count(q, items, i, i, true);
    CountFromFront(q, items, i, i + 1, false);
    CountFromFront(q, items, i, i + 1, true);
    assert Count(q, items, i + 1, i + 1, false) == 0 == Count(q, items, i + 1, i + 1, true);
  }

  lemma {:induction false} PageIs(q: Query, items: seq<Item>, i: nat, limit: nat) returns (end: nat)
    requires i <= |items|
    ensures EndsAt(q, items, i, limit, end)
    ensures var p := PageFrom(q, items, i, limit);
            Holds(q, items, i, end, p.items, p.scanned) && p.stop == if end < |items| then Some(end - 1) else None
    decreases |items| - i
  {
    hide PageFrom;
    if i == |items| {
      PageEnd(q, items, i, limit);
      end := i;
    } else {
      PageStep(q, items, i, limit);
      if Matches(q, items[i]) && limit == 1 {
        end := i + 1;
        LastOfPage(q, items, i);
      } else {
        var limit' := if Matches(q, items[i]) && limit > 0 then limit - 1 else limit;
        end := PageIs(q, items, i + 1, limit');
        PageGrows(q, items, i, limit, limit', end);
      }
    }
  }

  lemma CountNone(q: Query, items: seq<Item>, i: nat)
    requires i <= |items|
    ensures Count(q, items, i, i, false) == 0 == Count(q, items, i, i, true)
  {
  }

  lemma GrownHolds(q: Query, items: seq<Item>, i: nat, end: nat, result: seq<Item>, scanned: nat)
    requires i < end <= |items| && Holds(q, items, i + 1, end, result, scanned)
    ensures if Matches(q, items[i]) then Holds(q, items, i, end, Shown(q, items[i]) + result, 1 + scanned)
            else Holds(q, items, i, end, result, scanned)
  {
    hide Count;
    CountNone(q, items, i);
    var shown := if Matches(q, items[i]) then Shown(q, items[i]) else [];
    assert |shown| == (if Answers(q, items[i]) then 1 else 0);
    forall filtered: bool | true
      ensures Count(q, items, i, end, filtered) ==
              (if (if filtered then Answers(q, items[i]) else Matches(q, items[i])) then 1 else 0) + Count(q, items, i + 1, end, filtered)
    {
      CountFromFront(q, items, i, end, filtered);
    }
    forall k: nat | i <= k < end && Answers(q, items[k])
      ensures Count(q, items, i, k, true) < |shown + result| && (shown + result)[Count(q, items, i, k, true)] == q.project(items[k])
    {
      if k > i {
        CountFromFront(q, items, i, k, true);
        assert result[Count(q, items, i + 1, k, true)] == q.project(items[k]);
      }
    }
    assert [] + result == result;
  }

  lemma PageGrows(q: Query, items: seq<Item>, i: nat, limit: nat, limit': nat, end: nat)
    requires i < |items| && EndsAt(q, items, i + 1, limit', end)
    requires limit' == if Matches(q, items[i]) && limit > 0 then limit - 1 else limit
    requires Matches(q, items[i]) ==> limit != 1
    requires var rest := PageFrom(q, items, i + 1, limit'); Holds(q, items, i + 1, end, rest.items, rest.scanned)
    ensures EndsAt(q, items, i, limit, end)
    ensures var rest := PageFrom(q, items, i + 1, limit');
            if Matches(q, items[i]) then Holds(q, items, i, end, Shown(q, items[i]) + rest.items, 1 + rest.scanned)
            else Holds(q, items, i, end, rest.items, rest.scanned)
  {
    hide PageFrom, Count, Answers, Matches;
    forall k: nat, filtered: bool | i < k <= end
      ensures Count(q, items, i, k, filtered) ==
              (if (if filtered then Answers(q, items[i]) else Matches(q, items[i])) then 1 else 0) + Count(q, items, i + 1, k, filtered)
    {
      CountFromFront(q, items, i, k, filtered);
    }
    CountNone(q, items, i);
    GrownHolds(q, items, i, end, PageFrom(q, items, i + 1, limit').items, PageFrom(q, items, i + 1, limit').scanned);
  }

  /** `selectDynamoItems`. */
  method Select(q: Query, items: seq<Item>, start: Item, limit: nat)
    returns (result: seq<Item>, scanned: nat, lastKey: Option<Item>)
    ensures var p := PageFrom(q, items, StartIndex(q.schema, items, start), limit);
            && result == p.items && scanned == p.scanned
            && lastKey == if p.stop.Some? then Some(KeyPart(q.schema, items[p.stop.value])) else None
  {
    hide PageFrom, KeyPart, StartIndex, Ahead;
    result, scanned, lastKey := [], 0, None;
    var index := SkipToStart(q.schema, items, start);
    ghost var page := PageFrom(q, items, index, limit);
    AheadStart(q, items, limit, index);
    while index < |items|
      invariant index <= |items| && lastKey.None? && Ahead(q, items, limit, page, index, scanned, result)
    {
      AheadStep(q, items, limit, page, index, scanned, result);
      var item := items[index];
      if Admits(q.keyCondition, item) {
        scanned := scanned + 1;
        ghost var before := result;
        if Admits(q.filter, item) {
          result := result + [q.project(item)];
        }
        assert result == before + Shown(q, item);
        if limit > 0 && scanned >= limit {
          if index < |items| - 1 {
            lastKey := Some(KeyPart(q.schema, item));
          }
          return;
        }
      }
      index := index + 1;
    }
    AheadEnd(q, items, limit, page, scanned, result);
  }

  lemma EndIsPositive(q: Query, items: seq<Item>, lo: nat, limit: nat, end: nat)
    requires EndsAt(q, items, lo, limit, end)
    ensures end < |items| ==> end > 0
  {
  }

  /** The part of the loop that passes over the items up to ExclusiveStartKey. */
  method SkipToStart(schema: seq<KeyElement>, items: seq<Item>, start: Item) returns (index: nat)
    ensures index == StartIndex(schema, items, start) <= |items|
  {
    hide KeysEqual;
    var started := start == map[];
    index := 0;
    while !started && index < |items|
      invariant index <= |items|
      invariant started ==> index == StartIndex(schema, items, start)
      invariant !started ==> start != map[] && index <= FindKey(schema, items, start)
      decreases |items| - index, !started
    {
      started := KeysEqual(schema, items[index], start);
      index := index + 1;
    }
  }

  /* ------------------------------ Pagination is exact ------------------------------ */

  /** A page and the rest after it make up the unlimited answer. */
  lemma {:induction false} PageThenRest(q: Query, items: seq<Item>, i: nat, limit: nat)
    requires limit > 0
    ensures var p, all := PageFrom(q, items, i, limit), PageFrom(q, items, i, 0);
            if p.stop.None? then p.items == all.items && p.scanned == all.scanned
            else var rest := PageFrom(q, items, p.stop.value + 1, 0);
                 all.items == p.items + rest.items && all.scanned == p.scanned + rest.scanned
    decreases |items| - i
  {
    hide PageFrom;
    if i >= |items| {
      PageEnd(q, items, i, limit);
      PageEnd(q, items, i, 0);
    } else {
      PageStep(q, items, i, limit);
      PageStep(q, items, i, 0);
      if !Admits(q.keyCondition, items[i]) {
        PageThenRest(q, items, i + 1, limit);
      } else if limit > 1 {
        PageThenRest(q, items, i + 1, limit - 1);
        var p, shown := PageFrom(q, items, i + 1, limit - 1), Shown(q, items[i]);
        if p.stop.Some? {
          var rest := PageFrom(q, items, p.stop.value + 1, 0);
          assert shown + (p.items + rest.items) == shown + p.items + rest.items;
        }
      } else if i == |items| - 1 {
        PageEnd(q, items, i + 1, 0);
      }
    }
  }

  /** Every item has its key attributes, and no two items have equal ones. */
  ghost predicate DistinctKeys(schema: seq<KeyElement>, items: seq<Item>) {
    && schema != []
    && (forall i :: 0 <= i < |items| ==> HasKey(schema, items[i]))
    && (forall i, j :: 0 <= i < j < |items| ==> !KeysEqual(schema, items[i], items[j]))
  }

  ghost predicate HasKey(schema: seq<KeyElement>, item: Item) {
    forall e <- schema :: e.name in item
  }

  /** The key of the last evaluated item leads back to the item after it. */
  lemma LastKeyResumes(schema: seq<KeyElement>, items: seq<Item>, j: nat)
    requires DistinctKeys(schema, items) && j < |items|
    ensures StartIndex(schema, items, KeyPart(schema, items[j])) == j + 1
  {
    var key := KeyPart(schema, items[j]);
    assert HasKey(schema, items[j]);
    assert schema[0] in schema && schema[0].name in key;
    forall i | 0 <= i < |items| ensures KeysEqual(schema, items[i], key) <==> i == j {
      assert KeysEqual(schema, items[i], key) <==> KeysEqual(schema, items[i], items[j]) by {
        assert forall e <- schema :: AttributeOf(key, e.name) == AttributeOf(items[j], e.name);
      }
      assert KeysEqual(schema, items[i], items[j]) <==> KeysEqual(schema, items[j], items[i]);
    }
    assert KeysEqual(schema, items[j], key);
  }

  /* ------------------------------ The listing ------------------------------ */

  /** Bytewise order. */
  predicate Less(a: string, b: string) {
    b != "" && (a == "" || a[0] < b[0] || (a[0] == b[0] && Less(a[1..], b[1..])))
  }

  /** One is a proper prefix of the other, or has the smaller byte where they first differ. */
  lemma {:induction false} LessIff(a: string, b: string)
    ensures Less(a, b) <==> exists k :: 0 <= k <= |a| && k < |b| && a[..k] == b[..k] && (k == |a| || a[k] < b[k])
  {
    if a != "" && b != "" && a[0] == b[0] {
      LessIff(a[1..], b[1..]);
      if k :| 0 <= k <= |a[1..]| && k < |b[1..]| && a[1..][..k] == b[1..][..k] && (k == |a[1..]| || a[1..][k] < b[1..][k]) {
        assert a[..k + 1] == [a[0]] + a[1..][..k] && b[..k + 1] == [b[0]] + b[1..][..k];
      }
      if k :| 0 <= k <= |a| && k < |b| && a[..k] == b[..k] && (k == |a| || a[k] < b[k]) {
        assert k > 0;
        assert a[1..][..k - 1] == a[..k][1..] == b[..k][1..] == b[1..][..k - 1];
      }
    } else {
      SameHead(a, b);
      if Less(a, b) { assert a[..0] == b[..0]; }
    }
  }

  lemma SameHead(a: string, b: string)
    ensures forall k :: 0 < k <= |a| && k <= |b| && a[..k] == b[..k] ==> a[0] == b[0]
  {
    forall k | 0 < k <= |a| && k <= |b| && a[..k] == b[..k] ensures a[0] == b[0] {
      assert a[..k][0] == a[0] && b[..k][0] == b[0];
    }
  }

  lemma {:induction false} LessTransitive(a: string, b: string, c: string)
    requires Less(a, b) && Less(b, c)
    ensures Less(a, c)
  {
    if a != "" && a[0] == b[0] && b[0] == c[0] {
      LessTransitive(a[1..], b[1..], c[1..]);
    }
  }

  lemma {:induction false} LessIrreflexive(a: string)
    ensures !Less(a, a)
  {
    if a != "" { LessIrreflexive(a[1..]); }
  }

  predicate Ascending(keys: seq<string>) {
    forall i, j :: 0 <= i < j < |keys| ==> Less(keys[i], keys[j])
  }

  /** `DynamoListItems`: the items in the order of their encoded keys. */
  ghost predicate Lists(t: Table, keys: seq<string>, items: seq<Item>) {
    && Ascending(keys) && (forall k :: k in keys <==> k in t.items)
    && |items| == |keys| && forall i :: 0 <= i < |keys| ==> keys[i] in t.items && items[i] == t.items[keys[i]]
  }

  lemma TailMembers(a: seq<string>)
    requires Ascending(a) && a != []
    ensures forall k :: k in a[1..] <==> k in a && k != a[0]
  {
    LessIrreflexive(a[0]);
    assert a == [a[0]] + a[1..];
    assert forall m :: 1 <= m < |a| ==> Less(a[0], a[m]);
    assert forall m :: 0 <= m < |a| - 1 ==> a[1..][m] == a[m + 1];
  }

  /** A table has one listing, so pages of an unchanged table are cut from the same sequence. */
  lemma {:induction false} ListingIsUnique(a: seq<string>, b: seq<string>)
    requires Ascending(a) && Ascending(b) && forall k :: k in a <==> k in b
    ensures a == b
  {
    assert |b| > 0 ==> b[0] in b;
    if a != [] {
      assert a[0] in a;
      assert a[0] in b && b[0] in b;
      assert b[0] in a;
      var i :| 0 <= i < |b| && b[i] == a[0];
      var j :| 0 <= j < |a| && a[j] == b[0];
      if i > 0 && j > 0 {
        LessTransitive(a[0], b[0], a[0]);
        LessIrreflexive(a[0]);
      }
      assert a[0] == b[0];
      TailMembers(a);
      TailMembers(b);
      ListingIsUnique(a[1..], b[1..]);
      assert a == [a[0]] + a[1..] && b == [b[0]] + b[1..];
    }
  }

  lemma {:induction false} EqualKeysSamePrimary(schema: seq<KeyElement>, a: Item, b: Item)
    requires KeysEqual(schema, a, b) && HasKey(schema, a) && HasKey(schema, b)
    requires CloneItem(a) == a && CloneItem(b) == b
    ensures PrimaryKey(schema, a) == PrimaryKey(schema, b)
  {
    if schema != [] {
      var name := schema[0].name;
      assert schema[0] in schema;
      assert CloneItem(a)[name] == a[name] && CloneItem(b)[name] == b[name];
      assert forall e <- schema[1..] :: e in schema;
      EqualKeysSamePrimary(schema[1..], a, b);
    }
  }

  lemma {:induction false} KeyedItemsHaveKey(schema: seq<KeyElement>, item: Item)
    requires PrimaryKey(schema, item).Some?
    ensures HasKey(schema, item)
  {
    if schema != [] {
      KeyedItemsHaveKey(schema[1..], item);
      assert schema == [schema[0]] + schema[1..];
    }
  }

  /** The listing of an indexed table has distinct keys, which is what pagination needs. */
  lemma ListingHasDistinctKeys(t: Table, keys: seq<string>, items: seq<Item>)
    requires Indexed(t) && t.schema != [] && Lists(t, keys, items)
    ensures DistinctKeys(t.schema, items)
  {
    forall i | 0 <= i < |items| ensures HasKey(t.schema, items[i]) {
      assert IndexedAt(t, keys[i]);
      KeyedItemsHaveKey(t.schema, items[i]);
    }
    forall i, j | 0 <= i < j < |items| ensures !KeysEqual(t.schema, items[i], items[j]) {
      assert IndexedAt(t, keys[i]) && IndexedAt(t, keys[j]);
      LessIrreflexive(keys[i]);
      if KeysEqual(t.schema, items[i], items[j]) {
        EqualKeysSamePrimary(t.schema, items[i], items[j]);
      }
    }
  }

  /* ------------------------------ Reverse order ------------------------------ */

  function Reversed(s: seq<Item>): seq<Item> {
    seq(|s|, i requires 0 <= i < |s| => s[|s| - 1 - i])
  }

  /** `reverseDynamoItems`, in place. */
  method ReverseItems(a: array<Item>)
    modifies a
    ensures a[..] == Reversed(old(a[..]))
  {
    var left, right := 0, a.Length - 1;
    while left < right
      invariant 0 <= left && right == a.Length - 1 - left && left <= right + 1
      invariant forall k :: 0 <= k < left || right < k < a.Length ==> a[k] == old(a[a.Length - 1 - k])
      invariant forall k :: left <= k <= right ==> a[k] == old(a[k])
    {
      a[left], a[right] := a[right], a[left];
      left, right := left + 1, right - 1;
    }
  }

  /** Descending queries page just as exactly. */
  lemma ReversedHasDistinctKeys(schema: seq<KeyElement>, items: seq<Item>)
    requires DistinctKeys(schema, items)
    ensures DistinctKeys(schema, Reversed(items))
  {
    var r := Reversed(items);
    forall i, j | 0 <= i < j < |r| ensures !KeysEqual(schema, r[i], r[j]) {
      assert KeysEqual(schema, r[i], r[j]) <==> KeysEqual(schema, r[j], r[i]);
      assert !KeysEqual(schema, items[|items| - 1 - j], items[|items| - 1 - i]);
    }
  }

  /* ------------------------------ Following a query or scan of a table ------------------------------ */

  lemma {:induction false} LessTotal(a: string, b: string)
    ensures a == b || Less(a, b) || Less(b, a)
  {
    if a != "" && b != "" && a[0] == b[0] {
      LessTotal(a[1..], b[1..]);
      assert a == [a[0]] + a[1..] && b == [b[0]] + b[1..];
    }
  }

  method Least(keys: set<string>) returns (least: string)
    requires keys != {}
    ensures least in keys && forall k <- keys :: k != least ==> Less(least, k)
  {
    least :| least in keys;
    var todo := keys - {least};
    while todo != {}
      invariant todo < keys && least in keys - todo
      invariant forall k <- keys - todo :: k != least ==> Less(least, k)
      decreases |todo|
    {
      var k :| k in todo;
      todo := todo - {k};
      LessTotal(k, least);
      if Less(k, least) {
        forall j | j in keys - todo && j != k ensures Less(k, j) {
          if j != least { LessTransitive(k, least, j); }
        }
        least := k;
      }
    }
  }

  /** `DynamoListItems`: the keys sorted, then their items. */
  method ListItems(t: Table) returns (keys: seq<string>, items: seq<Item>)
    ensures Lists(t, keys, items)
  {
    keys, items := [], [];
    var todo := t.items.Keys;
    while todo != {}
      invariant todo <= t.items.Keys && Ascending(keys) && |items| == |keys|
      invariant forall k :: k in keys <==> k in t.items.Keys - todo
      invariant forall i, k :: 0 <= i < |keys| && k in todo ==> Less(keys[i], k)
      invariant forall i :: 0 <= i < |keys| ==> keys[i] in t.items && items[i] == t.items[keys[i]]
      decreases |todo|
    {
      var k := Least(todo);
      todo, keys, items := todo - {k}, keys + [k], items + [t.items[k]];
    }
  }

  /** The items in the direction of the request (`ScanIndexForward`). */
  function Directed(items: seq<Item>, forward: bool): seq<Item> {
    if forward then items else Reversed(items)
  }

  method Direct(items: seq<Item>, forward: bool) returns (r: seq<Item>)
    ensures r == Directed(items, forward)
  {
    if forward {
      return items;
    }
    var a := new Item[|items|](i requires 0 <= i < |items| => items[i]);
    assert a[..] == items;
    ReverseItems(a);
    r := a[..];
  }

  lemma SameListing(t: Table, keys: seq<string>, items: seq<Item>, keys': seq<string>, items': seq<Item>)
    requires Lists(t, keys, items) && Lists(t, keys', items')
    ensures items == items'
  {
    ListingIsUnique(keys, keys');
  }

  lemma DirectedHasDistinctKeys(t: Table, keys: seq<string>, items: seq<Item>, forward: bool)
    requires Indexed(t) && t.schema != [] && Lists(t, keys, items)
    ensures DistinctKeys(t.schema, Directed(items, forward))
  {
    ListingHasDistinctKeys(t, keys, items);
    ReversedHasDistinctKeys(t.schema, items);
  }

  /** Pagination is exact: on an unchanged indexed table, in either direction, with the table listed
      anew for every page, following LastEvaluatedKey terminates and yields the items and the scanned
      count of the unlimited query or scan. */
  method FollowTable(q: Query, t: Table, forward: bool, limit: nat) returns (result: seq<Item>, scanned: nat)
    requires Indexed(t) && t.schema != [] && q.schema == t.schema && limit >= 1
    ensures forall keys, items | Lists(t, keys, items) ::
              var all := PageFrom(q, Directed(items, forward), 0, 0);
              result == all.items && scanned == all.scanned
    ensures forall keys, items | Lists(t, keys, items) ::
              exists directed: seq<Item> ::
                && |directed| == |items|
                && (forall i :: 0 <= i < |items| ==> directed[i] == items[if forward then i else |items| - 1 - i])
                && Holds(q, directed, 0, |items|, result, scanned)
  {
    hide PageFrom, KeyPart, DistinctKeys, Lists, Directed, StartIndex, Indexed, Holds, EndsAt;
    result, scanned := [], 0;
    var start: Item := map[];
    ghost var from: nat := 0;
    var keys, listed := ListItems(t);
    ghost var keys0, listed0 := keys, listed;
    ghost var items := Directed(listed0, forward);
    DirectedHasDistinctKeys(t, keys0, listed0, forward);
    StartsAtZero(q.schema, items);
    while true
      invariant Lists(t, keys, listed) && from <= |items| && StartIndex(q.schema, items, start) == from
      invariant var all, rest := PageFrom(q, items, 0, 0), PageFrom(q, items, from, 0);
                all.items == result + rest.items && all.scanned == scanned + rest.scanned
      decreases |items| - from
    {
      SameListing(t, keys, listed, keys0, listed0);
      var page := Direct(listed, forward);
      var found, count, lastKey := Select(q, page, start, limit);
      PageThenRest(q, items, from, limit);
      result, scanned := result + found, scanned + count;
      if lastKey.None? {
        break;
      }
      start := lastKey.value;
      from := PageFrom(q, items, from, limit).stop.value + 1;
      LastKeyResumes(q.schema, items, from - 1);
      keys, listed := ListItems(t);
    }
    forall keys', items' | Lists(t, keys', items')
      ensures var all := PageFrom(q, Directed(items', forward), 0, 0);
              result == all.items && scanned == all.scanned
    {
      SameListing(t, keys', items', keys0, listed0);
    }
    AllIsHeld(q, items);
    forall keys', items' | Lists(t, keys', items')
      ensures exists directed: seq<Item> ::
                && |directed| == |items'|
                && (forall i :: 0 <= i < |items'| ==> directed[i] == items'[if forward then i else |items'| - 1 - i])
                && Holds(q, directed, 0, |items'|, result, scanned)
    {
      SameListing(t, keys', items', keys0, listed0);
      DirectedAt(items', forward);
      assert Holds(q, items, 0, |items'|, result, scanned);
    }
  }

  /** The unlimited answer holds every item that passes. */
  lemma AllIsHeld(q: Query, items: seq<Item>)
    ensures var all := PageFrom(q, items, 0, 0); Holds(q, items, 0, |items|, all.items, all.scanned)
  {
    hide PageFrom, Holds;
    var end := PageIs(q, items, 0, 0);
    assert end == |items|;
  }

  lemma DirectedAt(items: seq<Item>, forward: bool)
    ensures |Directed(items, forward)| == |items|
    ensures forall i :: 0 <= i < |items| ==> Directed(items, forward)[i] == items[if forward then i else |items| - 1 - i]
  {
  }

  lemma StartsAtZero(schema: seq<KeyElement>, items: seq<Item>)
    ensures StartIndex(schema, items, map[]) == 0
  {
  }
}
