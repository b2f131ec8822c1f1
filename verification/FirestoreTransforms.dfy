/**
 What an accepted Firestore write stores, field by field: the fields as sent, the masked ones merged,
 and what each transform makes of the value it finds.
 */
module FirestoreTransforms {
  import opened Common
  import opened FirestoreFields
  import opened Firestore

  /* ------------------------------ Encoding ------------------------------ */

  /** No map inside is empty. */
  predicate Solid(v: Value) {
    match v
    case Map(f) => f != map[] && forall k <- f :: Solid(f[k])
    case Array(es) => forall i :: 0 <= i < |es| ==> Solid(es[i])
    case _ => true
  }

  /** Encoding and decoding keeps a value exactly when no map in it is empty. */
  lemma {:induction false} WireKeepsIff(v: Value)
    ensures Wire(v) == v <==> Solid(v)
  {
    match v
    case Map(f) =>
      forall k | k in f ensures Wire(f[k]) == f[k] <==> Solid(f[k]) { WireKeepsIff(f[k]); }
      if f != map[] {
        assert Wire(v) == v ==> forall k <- f :: Wire(v).fields[k] == f[k];
        if Solid(v) { assert Wire(v).fields == f; }
      }
    case Array(es) =>
      forall i | 0 <= i < |es| ensures Wire(es[i]) == es[i] <==> Solid(es[i]) { WireKeepsIff(es[i]); }
      assert Wire(v) == v ==> forall i :: 0 <= i < |es| ==> Wire(v).elements[i] == es[i];
      if Solid(v) { assert Wire(v).elements == es; }
    case _ =>
  }

  /** The fields of a map value, none for a nil one. */
  function Entries(v: Value): Fields {
    match v
    case Map(f) => f
    case _ => map[]
  }

  /** The same value, where a nil map counts as an empty one. */
  predicate Same(a: Value, b: Value) {
    match a
    case Array(es) => b.Array? && |b.elements| == |es| && forall i :: 0 <= i < |es| ==> Same(es[i], b.elements[i])
    case Map(f) => (b.Map? || b.NilMap?) && Entries(b).Keys == f.Keys && forall k <- f :: Same(f[k], Entries(b)[k])
    case NilMap => (b.Map? || b.NilMap?) && Entries(b) == map[]
    case _ => b == a
  }

  /** `proto.Equal` is that. */
  lemma {:induction false} EqualIff(a: Value, b: Value)
    ensures Equal(a, b) <==> Same(a, b)
  {
    match a
    case Array(es) =>
      if b.Array? && |b.elements| == |es| {
        forall i | 0 <= i < |es| ensures Wire(es[i]) == Wire(b.elements[i]) <==> Same(es[i], b.elements[i]) { EqualIff(es[i], b.elements[i]); }
        if Same(a, b) {
          assert Wire(a).elements == Wire(b).elements;
        } else if Equal(a, b) {
          forall i | 0 <= i < |es| ensures Wire(es[i]) == Wire(b.elements[i]) {
            assert Wire(a).elements[i] == Wire(b).elements[i];
          }
        }
      } else if b.Array? {
        assert |Wire(a).elements| != |Wire(b).elements|;
      }
    case Map(f) =>
      if b.Map? && f != map[] && b.fields != map[] {
        assert Wire(a).fields.Keys == f.Keys && Wire(b).fields.Keys == b.fields.Keys;
        forall k | k in f && k in b.fields ensures Wire(f[k]) == Wire(b.fields[k]) <==> Same(f[k], b.fields[k]) { EqualIff(f[k], b.fields[k]); }
        if Same(a, b) {
          assert Wire(a).fields == Wire(b).fields;
        } else if Equal(a, b) {
          forall k | k in f ensures k in b.fields && Wire(f[k]) == Wire(b.fields[k]) {
            assert Wire(a).fields[k] == Wire(b).fields[k];
          }
        }
      }
    case _ =>
  }

  /** A field is decoded as it was encoded. */
  lemma {:induction false} GetOfWire(f: Fields, p: seq<string>)
    requires |p| >= 1
    ensures Get(WireFields(f), p) == Cloned(Get(f, p))
    decreases |p|
  {
    if |p| > 1 && p[0] in f && f[p[0]].Map? && f[p[0]].fields != map[] {
      assert Wire(f[p[0]]) == Map(WireFields(f[p[0]].fields));
      GetOfWire(f[p[0]].fields, p[1..]);
    }
  }

  /** An update without mask and transforms stores the fields as sent. */
  lemma UpdateStoresFields(docs: Documents, w: WriteOp, now: int, compare: (Value, Value) -> int)
    requires w.Update? && w.mask.None? && w.transforms == [] && Apply(docs, w, now, compare).status.Accepted?
    requires forall k <- w.fields :: Solid(w.fields[k])
    ensures var docs' := Apply(docs, w, now, compare).docs; w.name in docs' && docs'[w.name].fields == w.fields
  {
    forall k | k in w.fields ensures Wire(w.fields[k]) == w.fields[k] { WireKeepsIff(w.fields[k]); }
    assert WireFields(w.fields) == w.fields;
  }

  /** With a mask it takes over the masked fields and keeps those that no path of the mask overlaps. */
  lemma UpdateMergesFields(docs: Documents, w: WriteOp, now: int, compare: (Value, Value) -> int, q: string)
    requires w.Update? && w.mask.Some? && w.transforms == [] && Apply(docs, w, now, compare).status.Accepted?
    requires forall p <- w.mask.value :: p == q || Apart(p, q)
    ensures var docs', base := Apply(docs, w, now, compare).docs, if w.name in docs then docs[w.name].fields else map[];
            && w.name in docs'
            && Get(docs'[w.name].fields, Split(q))
               == Cloned(if q in w.mask.value then Field(w.name, w.fields, q) else Get(base, Split(q)))
  {
    hide Split, Get, Wire, ApplyMask;
    var base := if w.name in docs then docs[w.name].fields else map[];
    var masked := ApplyMask(base, w.name, w.fields, w.mask.value).value;
    MaskIsExact(base, w.name, w.fields, w.mask.value, q);
    GetOfWire(masked, Split(q));
    if v :| Field(w.name, w.fields, q) == Some(v) { WireTwice(v); }
  }

  /* ------------------------------ Transforms ------------------------------ */

  /** A number as a real; what is no number counts as 0. */
  function Amount(v: Value): real {
    match v
    case Integer(i) => i as real
    case Double(r) => r
    case _ => 0.0
  }

  function Whole(v: Value): int {
    match v
    case Integer(i) => i
    case _ => 0
  }

  /** The sum as a double if one side is one, else as a 64-bit integer; a missing field takes the amount. */
  ghost predicate Increments(current: Option<Value>, amount: Option<Value>, result: Value) {
    match (current, amount)
    case (_, None) => result == Integer(0)
    case (None, Some(a)) => Equal(result, a)
    case (Some(c), Some(a)) =>
      if c.Double? || a.Double? then result == Double(Amount(c) + Amount(a))
      else
        && result.Integer? && -0x8000_0000_0000_0000 <= result.i < 0x8000_0000_0000_0000
        && exists k: int :: Whole(c) + Whole(a) == result.i + 0x1_0000_0000_0000_0000 * k
  }

  /** The comparison tells the same of `a` and `b` from both sides. */
  ghost predicate Consistent(compare: (Value, Value) -> int, a: Value, b: Value) {
    && compare(a, a) == 0 && compare(b, b) == 0
    && (compare(a, b) >= 0 <==> compare(b, a) <= 0) && (compare(a, b) <= 0 <==> compare(b, a) >= 0)
  }

  /** The result is one of the two values, and neither is above it (`up`) or below it. */
  ghost predicate Extreme(current: Option<Value>, operand: Value, up: bool, compare: (Value, Value) -> int, result: Value) {
    match current
    case None => Equal(result, operand)
    case Some(c) =>
      && (Equal(result, c) || Equal(result, operand))
      && (Wire(c) == c && Consistent(compare, c, Wire(operand)) ==>
            if up then compare(result, c) >= 0 && compare(result, Wire(operand)) >= 0
            else compare(result, c) <= 0 && compare(result, Wire(operand)) <= 0)
  }

  /** What a transform makes of the value it finds. */
  ghost predicate Makes(t: Transform, current: Option<Value>, now: int, compare: (Value, Value) -> int, result: Value) {
    match t
    case ServerTime(_) => result == Timestamp(now)
    case Increment(_, amount) => Increments(current, amount, result)
    case Maximum(_, operand) => Extreme(current, operand, true, compare, result)
    case Minimum(_, operand) => Extreme(current, operand, false, compare, result)
    case AppendMissing(_, candidates) =>
      && result.Array? && ElementsOf(current) <= result.elements
      && (forall i :: 0 <= i < |candidates| ==> Contains(result.elements, candidates[i]))
      && (forall i :: |ElementsOf(current)| <= i < |result.elements| ==> Contains(candidates, result.elements[i]))
    case RemoveAll(_, candidates) =>
      && result.Array?
      && forall v :: Contains(result.elements, v) <==> Contains(ElementsOf(current), v) && !Contains(candidates, v)
    case Unsupported(_) => false
  }

  lemma WrapsAround(n: int) returns (k: int)
    ensures -0x8000_0000_0000_0000 <= Wrap64(n) < 0x8000_0000_0000_0000
    ensures n == Wrap64(n) + 0x1_0000_0000_0000_0000 * k
  {
    k := (n + 0x8000_0000_0000_0000) / 0x1_0000_0000_0000_0000;
  }

  lemma IncrementedIs(current: Option<Value>, amount: Option<Value>)
    ensures Increments(current, amount, Incremented(current, amount))
  {
    if amount.Some? {
      if current.None? {
        WireTwice(amount.value);
      } else if !current.value.Double? && !amount.value.Double? {
        var k := WrapsAround(Whole(current.value) + Whole(amount.value));
      }
    }
  }

  lemma TransformedMakes(current: Option<Value>, t: Transform, now: int, compare: (Value, Value) -> int)
    requires !t.Unsupported?
    ensures Makes(t, current, now, compare, Transformed(current, t, now, compare).value)
  {
    hide Wire;
    match t
    case Increment(_, amount) => IncrementedIs(current, amount);
    case Maximum(_, operand) =>
      WireTwice(operand);
      if current.Some? { WireTwice(current.value); }
    case Minimum(_, operand) =>
      WireTwice(operand);
      if current.Some? { WireTwice(current.value); }
    case AppendMissing(_, candidates) => AppendMissingAdds(ElementsOf(current), candidates);
    case RemoveAll(_, candidates) =>
      forall v ensures Contains(Without(ElementsOf(current), candidates), v)
                       <==> Contains(ElementsOf(current), v) && !Contains(candidates, v) {
        RemoveAllRemoves(ElementsOf(current), candidates, v);
      }
    case _ =>
  }

  /** One transform more. */
  lemma TransformStep(f: Fields, name: string, ts: seq<Transform>, now: int, compare: (Value, Value) -> int)
    requires ts != [] && ApplyTransforms(f, name, ts, now, compare).Done?
    ensures var n := |ts| - 1;
            && ApplyTransforms(f, name, ts[..n], now, compare).Done? && !ts[n].Unsupported?
            && var before := ApplyTransforms(f, name, ts[..n], now, compare).value;
               Set(before, Split(ts[n].path), Transformed(Field(name, before, ts[n].path), ts[n], now, compare).value)
               == Some(ApplyTransforms(f, name, ts, now, compare).value)
  {
    hide Set, Split, Get;
  }

  /** The field of a transform ends up as it makes of what the transforms before it left there, unless
      a later one overlaps. */
  lemma {:induction false} TransformDecides(f: Fields, name: string, ts: seq<Transform>, i: nat, now: int, compare: (Value, Value) -> int)
    requires ApplyTransforms(f, name, ts, now, compare).Done? && i < |ts|
    requires forall j :: i < j < |ts| ==> Apart(ts[j].path, ts[i].path)
    ensures ApplyTransforms(f, name, ts[..i], now, compare).Done?
    ensures var before, after := ApplyTransforms(f, name, ts[..i], now, compare).value, ApplyTransforms(f, name, ts, now, compare).value;
            && Get(after, Split(ts[i].path)).Some?
            && Makes(ts[i], Field(name, before, ts[i].path), now, compare, Get(after, Split(ts[i].path)).value)
  {
    var n := |ts| - 1;
    TransformStep(f, name, ts, now, compare);
    hide ApplyTransforms, Set, Split, Get, Field, Transformed, Makes;
    var before := ApplyTransforms(f, name, ts[..n], now, compare).value;
    var result := Transformed(Field(name, before, ts[n].path), ts[n], now, compare);
    TransformedMakes(Field(name, before, ts[n].path), ts[n], now, compare);
    if i == n {
      GetAfterSet(before, Split(ts[n].path), result.value);
    } else {
      TransformDecides(f, name, ts[..n], i, now, compare);
      assert ts[..n][..i] == ts[..i] && ts[..n][i] == ts[i] && Apart(ts[n].path, ts[i].path);
      SetKeepsOthers(before, Split(ts[n].path), result.value, Split(ts[i].path));
    }
  }

  /** Fields that diverge from every transformed one are left alone. */
  lemma {:induction false} TransformsKeepRest(f: Fields, name: string, ts: seq<Transform>, now: int, compare: (Value, Value) -> int, q: string)
    requires ApplyTransforms(f, name, ts, now, compare).Done? && forall j :: 0 <= j < |ts| ==> Apart(ts[j].path, q)
    ensures Get(ApplyTransforms(f, name, ts, now, compare).value, Split(q)) == Get(f, Split(q))
  {
    if ts != [] {
      var n := |ts| - 1;
      TransformStep(f, name, ts, now, compare);
      hide ApplyTransforms, Set, Split, Get, Field, Transformed;
      TransformsKeepRest(f, name, ts[..n], now, compare, q);
      var before := ApplyTransforms(f, name, ts[..n], now, compare).value;
      var result := Transformed(Field(name, before, ts[n].path), ts[n], now, compare);
      assert Apart(ts[n].path, q);
      SetKeepsOthers(before, Split(ts[n].path), result.value, Split(q));
    }
  }

  /** An accepted transform of a document stores what it makes of the field it finds there. */
  lemma TransformStores(docs: Documents, w: WriteOp, now: int, compare: (Value, Value) -> int, i: nat)
    requires w.TransformOnly? && Apply(docs, w, now, compare).status.Accepted? && i < |w.transforms|
    requires forall j :: 0 <= j < |w.transforms| && j != i ==> Apart(w.transforms[j].path, w.transforms[i].path)
    requires w.transforms[i].path != "__name__"
    ensures w.name in docs && w.name in Apply(docs, w, now, compare).docs
    ensures var stored := Get(Apply(docs, w, now, compare).docs[w.name].fields, Split(w.transforms[i].path));
            exists result :: Makes(w.transforms[i], Get(docs[w.name].fields, Split(w.transforms[i].path)), now, compare, result)
                             && stored == Some(Wire(result))
  {
    hide ApplyTransforms, Split, Get, Wire, Makes;
    var f, ts, path := docs[w.name].fields, w.transforms, w.transforms[i].path;
    var after := ApplyTransforms(f, w.name, ts, now, compare).value;
    TransformDecides(f, w.name, ts, i, now, compare);
    forall j | 0 <= j < |ts[..i]| ensures Apart(ts[..i][j].path, path) { assert ts[..i][j] == ts[j]; }
    TransformsKeepRest(f, w.name, ts[..i], now, compare, path);
    GetOfWire(after, Split(path));
    var result := Get(after, Split(path)).value;
    assert Makes(ts[i], Get(f, Split(path)), now, compare, result);
  }
}
