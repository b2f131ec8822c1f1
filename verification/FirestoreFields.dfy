/**
 Firestore values and field paths (internal/server/firestore.go).

 Go tells a map value whose map is nil from one whose map is empty: decoding yields nil for an empty
 map, and assigning into a nil map panics.  `NilMap` is the former, `Map(map[])` the latter.
 */
module FirestoreFields {
  import opened Common

  datatype Value =
    | Null | Bool(b: bool) | Integer(i: int) | Double(r: real) | Text(s: string) | Reference(name: string) | Timestamp(t: int)
    | Array(elements: seq<Value>)
    | Map(fields: map<string, Value>)
    | NilMap

  type Fields = map<string, Value>

  /** A value after encoding and decoding, or after `proto.Clone`: empty maps come back nil. */
  function Wire(v: Value): Value {
    match v
    case Map(f) => if f == map[] then NilMap else Map(map k | k in f :: Wire(f[k]))
    case Array(es) => Array(seq(|es|, i requires 0 <= i < |es| => Wire(es[i])))
    case _ => v
  }

  function WireFields(f: Fields): Fields {
    map k | k in f :: Wire(f[k])
  }

  /** `proto.Equal` does not tell nil from empty. */
  predicate Equal(a: Value, b: Value) {
    Wire(a) == Wire(b)
  }

  lemma {:induction false} WireTwice(v: Value)
    ensures Wire(Wire(v)) == Wire(v)
  {
    match v
    case Map(f) => forall k | k in f ensures Wire(Wire(f[k])) == Wire(f[k]) { WireTwice(f[k]); }
    case Array(es) => forall i | 0 <= i < |es| ensures Wire(Wire(es[i])) == Wire(es[i]) { WireTwice(es[i]); }
    case _ =>
  }

  /* ------------------------------ Paths ------------------------------ */

  /** `strings.Split(path, ".")`. */
  function Split(path: string): (parts: seq<string>)
    ensures |parts| >= 1
  {
    if path == "" then [""]
    else
      var rest := Split(path[1..]);
      if path[0] == '.' then [""] + rest else [[path[0]] + rest[0]] + rest[1..]
  }

  /** `firestoreField` below the document name. */
  function Get(f: Fields, parts: seq<string>): Option<Value>
    requires |parts| >= 1
    decreases |parts|
  {
    if parts[0] !in f then None
    else if |parts| == 1 then Some(f[parts[0]])
    else if f[parts[0]].Map? then Get(f[parts[0]].fields, parts[1..])
    else None
  }

  /** `setFirestoreField`; `None` is the panic of an assignment into a nil map. */
  function Set(f: Fields, parts: seq<string>, v: Value): Option<Fields>
    requires |parts| >= 1
    decreases |parts|
  {
    if |parts| == 1 then Some(f[parts[0] := v])
    else if parts[0] in f && f[parts[0]].NilMap? then None
    else
      var inner := if parts[0] in f && f[parts[0]].Map? then f[parts[0]].fields else map[];
      var inner' := Set(inner, parts[1..], v);
      if inner'.None? then None else Some(f[parts[0] := Map(inner'.value)])
  }

  /** `deleteFirestoreField`. */
  function Remove(f: Fields, parts: seq<string>): Fields
    requires |parts| >= 1
    decreases |parts|
  {
    if |parts| == 1 then f - {parts[0]}
    else if parts[0] in f && f[parts[0]].Map? then f[parts[0] := Map(Remove(f[parts[0]].fields, parts[1..]))]
    else f
  }

  /** Neither path is a prefix of the other. */
  predicate Diverge(p: seq<string>, q: seq<string>) {
    |p| > 0 && |q| > 0 && (p[0] != q[0] || Diverge(p[1..], q[1..]))
  }

  /** A value that was set is found, and paths that diverge are untouched. */
  lemma {:induction false} GetAfterSet(f: Fields, p: seq<string>, v: Value)
    requires |p| >= 1 && Set(f, p, v).Some?
    ensures Get(Set(f, p, v).value, p) == Some(v)
    decreases |p|
  {
    if |p| > 1 {
      GetAfterSet(if p[0] in f && f[p[0]].Map? then f[p[0]].fields else map[], p[1..], v);
    }
  }

  lemma {:induction false} SetKeepsOthers(f: Fields, p: seq<string>, v: Value, q: seq<string>)
    requires |p| >= 1 && Set(f, p, v).Some? && Diverge(p, q)
    ensures Get(Set(f, p, v).value, q) == Get(f, q)
    decreases |p|
  {
    if p[0] == q[0] {
      var inner := if p[0] in f && f[p[0]].Map? then f[p[0]].fields else map[];
      SetKeepsOthers(inner, p[1..], v, q[1..]);
    }
  }

  lemma {:induction false} GetAfterRemove(f: Fields, p: seq<string>)
    requires |p| >= 1
    ensures Get(Remove(f, p), p).None?
    decreases |p|
  {
    if |p| > 1 && p[0] in f && f[p[0]].Map? {
      GetAfterRemove(f[p[0]].fields, p[1..]);
    }
  }

  lemma {:induction false} RemoveKeepsOthers(f: Fields, p: seq<string>, q: seq<string>)
    requires |p| >= 1 && Diverge(p, q)
    ensures Get(Remove(f, p), q) == Get(f, q)
    decreases |p|
  {
    if p[0] == q[0] && p[0] in f && f[p[0]].Map? && |p| > 1 {
      RemoveKeepsOthers(f[p[0]].fields, p[1..], q[1..]);
    }
  }

  /** Setting panics exactly when the path leads through a nil map. */
  lemma {:induction false} SetPanicsIff(f: Fields, p: seq<string>, v: Value)
    requires |p| >= 1
    ensures Set(f, p, v).None? <==> exists k :: 0 < k < |p| && Get(f, p[..k]) == Some(NilMap)
    decreases |p|
  {
    if |p| > 1 {
      var through := p[0] in f && f[p[0]].Map?;
      var inner := if through then f[p[0]].fields else map[];
      SetPanicsIff(inner, p[1..], v);
      assert p[..1] == [p[0]];
      if Set(f, p, v).None? && !(p[0] in f && f[p[0]].NilMap?) {
        var k :| 0 < k < |p[1..]| && Get(inner, p[1..][..k]) == Some(NilMap);
        PrefixThrough(f, p, k);
      }
      if k :| 0 < k < |p| && Get(f, p[..k]) == Some(NilMap) {
        if k > 1 {
          PrefixThrough(f, p, k - 1);
          assert Get(inner, p[1..][..k - 1]) == Some(NilMap);
        }
      }
    }
  }

  lemma PrefixThrough(f: Fields, p: seq<string>, k: nat)
    requires |p| > 1 && 0 < k < |p|
    ensures k < |p| ==> Get(f, p[..k + 1]) == if p[0] in f && f[p[0]].Map? then Get(f[p[0]].fields, p[1..][..k]) else None
  {
    assert p[..k + 1][0] == p[0] && p[..k + 1][1..] == p[1..][..k];
  }

  /** A stored empty map makes the next write below it panic. */
  lemma EmptyMapPanics(v: Value)
    ensures Set(WireFields(map["a" := Map(map[])]), ["a", "b"], v).None?
    ensures Set(map["a" := Map(map[])], ["a", "b"], v).Some?
  {
    assert WireFields(map["a" := Map(map[])])["a"] == NilMap;
  }

  /* ------------------------------ Masks ------------------------------ */

  /** `firestoreField`: the path `__name__` is the document's name, whatever its fields. */
  function Field(name: string, f: Fields, path: string): Option<Value> {
    if path == "__name__" then Some(Reference(name)) else Get(f, Split(path))
  }

  /** The loop over the update mask: copy the field, or delete it where the update has none. */
  function ApplyMask(f: Fields, name: string, update: Fields, mask: seq<string>): Option<Fields> {
    if mask == [] then Some(f)
    else
      var n := |mask| - 1;
      var before := ApplyMask(f, name, update, mask[..n]);
      if before.None? then None
      else
        var v := Field(name, update, mask[n]);
        if v.Some? then Set(before.value, Split(mask[n]), Wire(v.value)) else Some(Remove(before.value, Split(mask[n])))
  }

  function Cloned(v: Option<Value>): Option<Value> {
    if v.Some? then Some(Wire(v.value)) else None
  }

  predicate Apart(p: string, q: string) {
    Diverge(Split(p), Split(q))
  }

  /** What a value holds at a path below it. */
  function Below(v: Option<Value>, rest: seq<string>): Option<Value> {
    if v.None? || rest == [] then v else if v.value.Map? then Get(v.value.fields, rest) else None
  }

  /** Setting decides everything at and below its path. */
  lemma {:induction false} GetBelowSet(f: Fields, p: seq<string>, v: Value, q: seq<string>)
    requires 1 <= |p| <= |q| && p == q[..|p|] && Set(f, p, v).Some?
    ensures Get(Set(f, p, v).value, q) == Below(Some(v), q[|p|..])
    decreases |p|
  {
    assert q[0] == p[0];
    if |p| > 1 {
      var inner := if p[0] in f && f[p[0]].Map? then f[p[0]].fields else map[];
      assert q[1..][..|p| - 1] == p[1..] && q[1..][|p| - 1..] == q[|p|..];
      GetBelowSet(inner, p[1..], v, q[1..]);
    } else {
      assert q[|p|..] == q[1..];
    }
  }

  lemma {:induction false} GetBelowRemove(f: Fields, p: seq<string>, q: seq<string>)
    requires 1 <= |p| <= |q| && p == q[..|p|]
    ensures Get(Remove(f, p), q).None?
    decreases |p|
  {
    assert q[0] == p[0];
    if |p| > 1 && p[0] in f && f[p[0]].Map? {
      assert q[1..][..|p| - 1] == p[1..];
      GetBelowRemove(f[p[0]].fields, p[1..], q[1..]);
    }
  }

  /** One path of the mask. */
  lemma MaskStep(f: Fields, name: string, update: Fields, mask: seq<string>)
    requires mask != [] && ApplyMask(f, name, update, mask).Some?
    ensures var n := |mask| - 1;
            && ApplyMask(f, name, update, mask[..n]).Some?
            && var before, v := ApplyMask(f, name, update, mask[..n]).value, Field(name, update, mask[n]);
               if v.Some? then Set(before, Split(mask[n]), Wire(v.value)) == ApplyMask(f, name, update, mask)
               else ApplyMask(f, name, update, mask) == Some(Remove(before, Split(mask[n])))
  {
  }

  /** Every path that diverges from all paths of the mask is kept. */
  lemma {:induction false} MaskKeepsRest(f: Fields, name: string, update: Fields, mask: seq<string>, q: string)
    requires ApplyMask(f, name, update, mask).Some? && forall i :: 0 <= i < |mask| ==> Apart(mask[i], q)
    ensures Get(ApplyMask(f, name, update, mask).value, Split(q)) == Get(f, Split(q))
  {
    if mask != [] {
      var n := |mask| - 1;
      MaskStep(f, name, update, mask);
      hide ApplyMask, Split, Set, Remove, Get;
      MaskKeepsRest(f, name, update, mask[..n], q);
      assert Apart(mask[n], q);
      var before, v := ApplyMask(f, name, update, mask[..n]).value, Field(name, update, mask[n]);
      if v.Some? { SetKeepsOthers(before, Split(mask[n]), Wire(v.value), Split(q)); } else { RemoveKeepsOthers(before, Split(mask[n]), Split(q)); }
    }
  }

  /** The last mask path that leads to `q` decides: `q` ends up as in the update, present or absent.
      Paths of the mask may repeat and overlap. */
  lemma {:induction false} MaskLastDecides(f: Fields, name: string, update: Fields, mask: seq<string>, i: nat, q: string)
    requires ApplyMask(f, name, update, mask).Some? && i < |mask|
    requires |Split(mask[i])| <= |Split(q)| && Split(q)[..|Split(mask[i])|] == Split(mask[i])
    requires forall j :: i < j < |mask| ==> Apart(mask[j], q)
    ensures Get(ApplyMask(f, name, update, mask).value, Split(q)) ==
            Below(Cloned(Field(name, update, mask[i])), Split(q)[|Split(mask[i])|..])
  {
    var n := |mask| - 1;
    MaskStep(f, name, update, mask);
    hide ApplyMask, Split, Set, Remove, Get, Field;
    var before, v := ApplyMask(f, name, update, mask[..n]).value, Field(name, update, mask[n]);
    if i == n {
      if v.Some? { GetBelowSet(before, Split(mask[n]), Wire(v.value), Split(q)); } else { GetBelowRemove(before, Split(mask[n]), Split(q)); }
    } else {
      MaskLastDecides(f, name, update, mask[..n], i, q);
      assert Apart(mask[n], q);
      if v.Some? { SetKeepsOthers(before, Split(mask[n]), Wire(v.value), Split(q)); } else { RemoveKeepsOthers(before, Split(mask[n]), Split(q)); }
    }
  }

  /** A masked update takes over exactly the masked fields: a path that the mask names, and that no
      other path of the mask overlaps, ends up as in the update; one that diverges from all is kept. */
  lemma MaskIsExact(f: Fields, name: string, update: Fields, mask: seq<string>, q: string)
    requires ApplyMask(f, name, update, mask).Some? && forall p <- mask :: p == q || Apart(p, q)
    ensures Get(ApplyMask(f, name, update, mask).value, Split(q)) == if q in mask then Cloned(Field(name, update, q)) else Get(f, Split(q))
  {
    hide ApplyMask, Split, Get, Field;
    if q in mask {
      var i := LastIndex(mask, q);
      assert Split(q)[..|Split(q)|] == Split(q) && Split(q)[|Split(q)|..] == [];
      MaskLastDecides(f, name, update, mask, i, q);
    } else {
      MaskKeepsRest(f, name, update, mask, q);
    }
  }

  function LastIndex(mask: seq<string>, q: string): (i: nat)
    requires q in mask
    ensures i < |mask| && mask[i] == q && forall j :: i < j < |mask| ==> mask[j] != q
  {
    var n := |mask| - 1;
    if mask[n] == q then n else assert mask == mask[..n] + [mask[n]]; LastIndex(mask[..n], q)
  }
}
