/** DynamoDB attribute values (internal/state/dynamodb.go). */
module DynamoValues {
  import opened Common

  datatype Elements = NoList | List(elements: seq<AttributeValue>)

  datatype Entries = NoMap | Map(entries: map<string, AttributeValue>)

  /** The wire record of an attribute value, its members in the order `MarshalJSON` looks at them: B,
      BOOL, BS, L, M, N, NS, NULL, S, SS. */
  datatype AttributeValue = AttributeValue(
    b: Option<string>, boolean: Option<bool>, bs: Option<seq<string>>, l: Elements, m: Entries,
    n: Option<string>, ns: Option<seq<string>>, isNull: Option<bool>, s: Option<string>, ss: Option<seq<string>>)

  type Item = map<string, AttributeValue>

  const NOTHING := AttributeValue(None, None, None, NoList, NoMap, None, None, None, None, None)

  /** `MarshalJSON` succeeds: the value has a member, and so have the values inside the first of them. */
  predicate Encodes(v: AttributeValue) {
    if v.b.Some? || v.boolean.Some? || v.bs.Some? then true
    else if v.l.List? then forall i :: 0 <= i < |v.l.elements| ==> Encodes(v.l.elements[i])
    else if v.m.Map? then forall k <- v.m.entries :: Encodes(v.m.entries[k])
    else v != NOTHING
  }

  /** `cloneDynamoAttributeValue`: encoding keeps the first member that is set, decoding restores it;
      what cannot be encoded comes back empty. */
  function Clone(v: AttributeValue): AttributeValue {
    if !Encodes(v) then NOTHING
    else if v.b.Some? then NOTHING.(b := v.b)
    else if v.boolean.Some? then NOTHING.(boolean := v.boolean)
    else if v.bs.Some? then NOTHING.(bs := v.bs)
    else if v.l.List? then NOTHING.(l := List(seq(|v.l.elements|, i requires 0 <= i < |v.l.elements| => Clone(v.l.elements[i]))))
    else if v.m.Map? then NOTHING.(m := Map(map k | k in v.m.entries :: Clone(v.m.entries[k])))
    else if v.n.Some? then NOTHING.(n := v.n)
    else if v.ns.Some? then NOTHING.(ns := v.ns)
    else if v.isNull.Some? then NOTHING.(isNull := v.isNull)
    else if v.s.Some? then NOTHING.(s := v.s)
    else NOTHING.(ss := v.ss)
  }

  function CloneItem(item: Item): Item {
    map name | name in item :: Clone(item[name])
  }

  /* ------------------------------ What a clone keeps ------------------------------ */

  /** How many members are set. */
  function Members(v: AttributeValue): nat {
    (if v.b.Some? then 1 else 0) + (if v.boolean.Some? then 1 else 0) + (if v.bs.Some? then 1 else 0)
    + (if v.l.List? then 1 else 0) + (if v.m.Map? then 1 else 0) + (if v.n.Some? then 1 else 0)
    + (if v.ns.Some? then 1 else 0) + (if v.isNull.Some? then 1 else 0) + (if v.s.Some? then 1 else 0)
    + (if v.ss.Some? then 1 else 0)
  }

  /** Exactly one member is set, here and in every value inside: what a request for one value holds. */
  predicate Single(v: AttributeValue) {
    && Members(v) == 1
    && (v.l.List? ==> forall i :: 0 <= i < |v.l.elements| ==> Single(v.l.elements[i]))
    && (v.m.Map? ==> forall k <- v.m.entries :: Single(v.m.entries[k]))
  }

  predicate SingleItem(item: Item) {
    forall name <- item :: Single(item[name])
  }

  lemma {:induction false} SingleIsKept(v: AttributeValue)
    requires Single(v)
    ensures Encodes(v) && Clone(v) == v
  {
    if v.l.List? {
      forall i | 0 <= i < |v.l.elements| ensures Encodes(v.l.elements[i]) && Clone(v.l.elements[i]) == v.l.elements[i] {
        SingleIsKept(v.l.elements[i]);
      }
      assert Clone(v).l.elements == v.l.elements;
    }
    if v.m.Map? {
      forall k | k in v.m.entries ensures Encodes(v.m.entries[k]) && Clone(v.m.entries[k]) == v.m.entries[k] {
        SingleIsKept(v.m.entries[k]);
      }
      assert Clone(v).m.entries == v.m.entries;
    }
  }

  /** A clone has one member everywhere, or none at all. */
  lemma {:induction false} ClonesAreSingle(v: AttributeValue)
    ensures if Encodes(v) then Single(Clone(v)) else Clone(v) == NOTHING
  {
    if Encodes(v) && v.l.List? {
      forall i | 0 <= i < |v.l.elements| ensures Encodes(v.l.elements[i]) ==> Single(Clone(v.l.elements[i])) {
        ClonesAreSingle(v.l.elements[i]);
      }
    }
    if Encodes(v) && v.m.Map? {
      forall k | k in v.m.entries ensures Encodes(v.m.entries[k]) ==> Single(Clone(v.m.entries[k])) {
        ClonesAreSingle(v.m.entries[k]);
      }
    }
  }

  /** Storing keeps a value unchanged exactly when it has one member everywhere, or none at all. */
  lemma CloneKeepsIff(v: AttributeValue)
    ensures Clone(v) == v <==> Single(v) || v == NOTHING
  {
    ClonesAreSingle(v);
    if Single(v) {
      SingleIsKept(v);
    }
  }

  /** Of several members the first in that order stays, as it was, and no other; of a list or a map
      the elements are stored in turn, and one that cannot be stored empties the whole. */
  lemma CloneKeepsFirst(v: AttributeValue)
    ensures var only := Clone(v);
            if v.b.Some? then only == NOTHING.(b := v.b)
            else if v.boolean.Some? then only == NOTHING.(boolean := v.boolean)
            else if v.bs.Some? then only == NOTHING.(bs := v.bs)
            else if v.l.List? then only == NOTHING.(l := v.l) || exists i :: 0 <= i < |v.l.elements| && !Single(v.l.elements[i])
            else if v.m.Map? then only == NOTHING.(m := v.m) || exists k :: k in v.m.entries && !Single(v.m.entries[k])
            else if v.n.Some? then only == NOTHING.(n := v.n)
            else if v.ns.Some? then only == NOTHING.(ns := v.ns)
            else if v.isNull.Some? then only == NOTHING.(isNull := v.isNull)
            else if v.s.Some? then only == NOTHING.(s := v.s)
            else only == NOTHING.(ss := v.ss)
  {
    if v.b.None? && v.boolean.None? && v.bs.None? {
      if v.l.List? && forall i :: 0 <= i < |v.l.elements| ==> Single(v.l.elements[i]) {
        SingleIsKept(NOTHING.(l := v.l));
      } else if v.l.NoList? && v.m.Map? && forall k <- v.m.entries :: Single(v.m.entries[k]) {
        SingleIsKept(NOTHING.(m := v.m));
      }
    }
  }

  lemma SingleItemIsKept(item: Item)
    requires SingleItem(item)
    ensures CloneItem(item) == item
  {
    forall name | name in item ensures Clone(item[name]) == item[name] { SingleIsKept(item[name]); }
  }
}
