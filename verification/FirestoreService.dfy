/** The Firestore server's write path: loops over a working copy, then one save. */
module FirestoreService {
  import opened Common
  import opened Durable
  import D = Durable
  import opened FirestoreFields
  import opened Firestore
  import opened FirestoreConditions

  /** What a caller of `Commit` or `BatchWrite` sees. */
  datatype Response<T> = Success(value: T) | Rejected(code: Code) | SaveFailed | Crashed

  /** `proto.Equal` against each element until one matches. */
  method Search(values: seq<Value>, v: Value) returns (found: bool)
    ensures found <==> Contains(values, v)
  {
    var i := 0;
    while i < |values|
      invariant i <= |values| && forall j :: 0 <= j < i ==> !Equal(values[j], v)
    {
      if Equal(values[i], v) {
        return true;
      }
      i := i + 1;
    }
    found := false;
  }

  method AppendElements(current: Option<Value>, candidates: seq<Value>) returns (values: seq<Value>)
    ensures values == WithMissing(ElementsOf(current), candidates)
  {
    values := ElementsOf(current);
    var i := 0;
    while i < |candidates|
      invariant i <= |candidates| && values == WithMissing(ElementsOf(current), candidates[..i])
    {
      assert candidates[..i + 1][..i] == candidates[..i];
      var found := Search(values, candidates[i]);
      if !found {
        values := values + [Wire(candidates[i])];
      }
      i := i + 1;
    }
    assert candidates[..i] == candidates;
  }

  method RemoveElements(current: Option<Value>, candidates: seq<Value>) returns (values: seq<Value>)
    ensures values == Without(ElementsOf(current), candidates)
  {
    values := [];
    var elements, i := ElementsOf(current), 0;
    while i < |elements|
      invariant i <= |elements| && values == Without(elements[..i], candidates)
    {
      assert elements[..i + 1][..i] == elements[..i];
      var remove := Search(candidates, elements[i]);
      assert Contains(candidates, elements[..i + 1][i]) == remove;
      if !remove {
        values := values + [Wire(elements[i])];
      }
      i := i + 1;
    }
    assert elements[..i] == elements;
  }

  /** `applyFirestoreTransforms`. */
  method TransformFields(f: Fields, name: string, ts: seq<Transform>, now: int, compare: (Value, Value) -> int) returns (r: Outcome<Fields>)
    ensures r == ApplyTransforms(f, name, ts, now, compare)
  {
    hide Set, Split, Get, Wire, WithMissing, Without;
    var fields, i := f, 0;
    while i < |ts|
      invariant i <= |ts| && ApplyTransforms(f, name, ts[..i], now, compare) == Done(fields)
    {
      var t := ts[i];
      assert ts[..i + 1][..i] == ts[..i] && ts[..i + 1][i] == t;
      var current := Field(name, fields, t.path);
      var result := Null;
      match t {
        case ServerTime(_) => result := Timestamp(now);
        case Increment(_, amount) => result := Incremented(current, amount);
        case Maximum(_, operand) =>
          result := Wire(operand);
          if current.Some? && compare(current.value, result) >= 0 {
            result := Wire(current.value);
          }
        case Minimum(_, operand) =>
          result := Wire(operand);
          if current.Some? && compare(current.value, result) <= 0 {
            result := Wire(current.value);
          }
        case AppendMissing(_, candidates) =>
          var values := AppendElements(current, candidates);
          result := Array(values);
        case RemoveAll(_, candidates) =>
          var values := RemoveElements(current, candidates);
          result := Array(values);
        case Unsupported(_) =>
          StoppedTransforms(f, name, ts, i + 1, now, compare);
          return Failed(InvalidArgument);
      }
      var after := Set(fields, Split(t.path), result);
      if after.None? {
        StoppedTransforms(f, name, ts, i + 1, now, compare);
        return Panicked;
      }
      fields := after.value;
      i := i + 1;
    }
    assert ts[..i] == ts;
    r := Done(fields);
  }

  /** A transform that stops the loop decides the outcome. */
  lemma {:induction false} StoppedTransforms(f: Fields, name: string, ts: seq<Transform>, n: nat, now: int, compare: (Value, Value) -> int)
    requires n <= |ts| && !ApplyTransforms(f, name, ts[..n], now, compare).Done?
    ensures ApplyTransforms(f, name, ts, now, compare) == ApplyTransforms(f, name, ts[..n], now, compare)
    decreases |ts| - n
  {
    if n < |ts| {
      assert ts[..n + 1][..n] == ts[..n];
      StoppedTransforms(f, name, ts, n + 1, now, compare);
    } else {
      assert ts[..n] == ts;
    }
  }

  /** The loop over the update mask; `None` is the panic of an assignment into a nil map. */
  method MaskFields(f: Fields, name: string, update: Fields, mask: seq<string>) returns (r: Option<Fields>)
    ensures r == ApplyMask(f, name, update, mask)
  {
    hide Set, Remove, Split, Get, Wire;
    var fields, i := f, 0;
    while i < |mask|
      invariant i <= |mask| && ApplyMask(f, name, update, mask[..i]) == Some(fields)
    {
      assert mask[..i + 1][..i] == mask[..i];
      var v := Field(name, update, mask[i]);
      if v.Some? {
        var after := Set(fields, Split(mask[i]), Wire(v.value));
        if after.None? {
          StoppedMask(f, name, update, mask, i + 1);
          return None;
        }
        fields := after.value;
      } else {
        fields := Remove(fields, Split(mask[i]));
      }
      i := i + 1;
    }
    assert mask[..i] == mask;
    r := Some(fields);
  }

  lemma {:induction false} StoppedMask(f: Fields, name: string, update: Fields, mask: seq<string>, n: nat)
    requires n <= |mask| && ApplyMask(f, name, update, mask[..n]).None?
    ensures ApplyMask(f, name, update, mask).None?
    decreases |mask| - n
  {
    if n < |mask| {
      assert mask[..n + 1][..n] == mask[..n];
      StoppedMask(f, name, update, mask, n + 1);
    } else {
      assert mask[..n] == mask;
    }
  }

  /** The isolated map that `MutateFirestore` hands to its callback. */
  class WorkingMap {
    var documents: Documents

    constructor (documents: Documents)
      ensures this.documents == documents
    {
      this.documents := documents;
    }

    /** `applyFirestoreWrite`, which changes the map in place.  A write that fails leaves it alone. */
    method ApplyWrite(w: WriteOp, now: int, compare: (Value, Value) -> int) returns (status: Status)
      modifies this
      ensures Applied(documents, status) == Apply(old(documents), w, now, compare)
      ensures !status.Accepted? ==> documents == old(documents)
      ensures !w.NoOperation? ==> (status == Refused(FailedPrecondition) <==> !Meets(old(documents), w))
      ensures status.Accepted? ==> !w.NoOperation? && Dates(old(documents), w, now, documents)
    {
      hide ApplyTransforms, ApplyMask, Wire, Dates, Meets;
      if !w.NoOperation? {
        RefusedIff(documents, w, now, compare);
      }
      if Apply(documents, w, now, compare).status.Accepted? {
        AcceptedMeetsAndDates(documents, w, now, compare);
      }
      match w
      case NoOperation =>
        return Refused(InvalidArgument);
      case Delete(name, p) =>
        if !Holds(Existing(documents, name), p) {
          return Refused(FailedPrecondition);
        }
        documents := documents - {name};
        return Accepted;
      case TransformOnly(name, ts, p) =>
        if !Holds(Existing(documents, name), p) {
          return Refused(FailedPrecondition);
        }
        if name !in documents {
          return Refused(NotFound);
        }
        var fields := TransformFields(documents[name].fields, name, ts, now, compare);
        status := Store(name, fields, documents[name].createTime, now);
      case Update(name, update, mask, ts, p) =>
        if !Holds(Existing(documents, name), p) {
          return Refused(FailedPrecondition);
        }
        var fields: Fields, createdAt := map[], now;
        if name in documents {
          fields, createdAt := documents[name].fields, documents[name].createTime;
        }
        if mask.None? {
          fields := WireFields(update);
        } else {
          var masked := MaskFields(fields, name, update, mask.value);
          if masked.None? {
            return Crash;
          }
          fields := masked.value;
        }
        var transformed := TransformFields(fields, name, ts, now, compare);
        status := Store(name, transformed, createdAt, now);
    }

    /** The last step of a write: the map changes only once everything has succeeded. */
    method Store(name: string, fields: Outcome<Fields>, createTime: int, now: int) returns (status: Status)
      modifies this
      ensures Applied(documents, status) == Finish(old(documents), name, fields, createTime, now)
      ensures !status.Accepted? ==> documents == old(documents)
    {
      match fields
      case Failed(c) =>
        status := Refused(c);
      case Panicked =>
        status := Crash;
      case Done(f) =>
        documents := documents[name := Document(WireFields(f), createTime, now)];
        status := Accepted;
    }
  }

  class FirestoreStore {
    var documents: Documents
    var committed: Documents

    ghost function Now(): D.Store<Documents>
      reads this
    {
      D.Store(documents, committed)
    }

    constructor ()
      ensures Now() == D.Store(map[], map[])
    {
      documents, committed := map[], map[];
    }

    method Save(ok: bool)
      modifies this
      ensures Now() == Settle(old(Now()), Write(old(documents), true), ok)
    {
      if ok {
        committed := documents;
      } else {
        documents := committed;
      }
    }

    /** All writes or none: a failing or panicking write leaves documents and disk untouched. */
    method Commit(writes: seq<WriteOp>, now: int, compare: (Value, Value) -> int, saveOk: bool) returns (r: Response<()>)
      modifies this
      ensures Now() == Settle(old(Now()), Perform(old(documents), CommitRequest(writes, now), compare), saveOk)
      ensures r == match Fold(old(documents), writes, now, compare).status
                   case Refused(c) => Rejected(c)
                   case Crash => Crashed
                   case Accepted => if saveOk then Success(()) else SaveFailed
      ensures r.Success? ==>
                forall i: nat :: i < |writes| ==>
                  !writes[i].NoOperation? && Meets(Fold(old(documents), writes[..i], now, compare).docs, writes[i])
      ensures r == Rejected(FailedPrecondition) <==>
                exists i: nat :: i < |writes| && UnmetAt(old(documents), writes, i, now, compare)
    {
      hide Apply, Meets, UnmetAt;
      CommitRefusedIff(documents, writes, now, compare);
      if Fold(documents, writes, now, compare).status.Accepted? {
        forall i: nat | i < |writes|
          ensures !writes[i].NoOperation? && Meets(Fold(documents, writes[..i], now, compare).docs, writes[i])
        {
          CommitMeetsAndDates(documents, writes, i, now, compare);
        }
      }
      var working := new WorkingMap(documents);
      var i := 0;
      while i < |writes|
        invariant i <= |writes| && Fold(documents, writes[..i], now, compare) == Applied(working.documents, Accepted)
        invariant unchanged(this)
      {
        assert writes[..i + 1][..i] == writes[..i];
        var status := working.ApplyWrite(writes[i], now, compare);
        i := i + 1;
        if !status.Accepted? {
          StoppedFold(documents, writes, i, now, compare);
          return if status.Refused? then Rejected(status.code) else Crashed;
        }
      }
      assert writes[..i] == writes;
      documents := working.documents;
      Save(saveOk);
      r := if saveOk then Success(()) else SaveFailed;
    }

    /** Each write on its own, on the map as the writes before it left it: the failing ones are
        reported and skipped. */
    method BatchWrite(writes: seq<WriteOp>, now: int, compare: (Value, Value) -> int, saveOk: bool) returns (r: Response<seq<Option<Code>>>)
      modifies this
      ensures Now() == Settle(old(Now()), Perform(old(documents), BatchRequest(writes, now), compare), saveOk)
      ensures r == match BatchAll(old(documents), writes, now, compare)
                   case None => Crashed
                   case Some(b) => if saveOk then Success(b.status) else SaveFailed
      ensures r.Success? ==>
                && |r.value| == |writes|
                && BatchAll(old(documents), writes, now, compare).Some?
                && forall i: nat :: i < |writes| ==> StatusAt(old(documents), writes, i, now, compare)
    {
      hide Apply, Meets;
      if BatchAll(documents, writes, now, compare).Some? {
        forall i: nat | i < |writes| ensures StatusAt(documents, writes, i, now, compare) {
          BatchStatusIff(documents, writes, i, now, compare);
        }
      }
      var working := new WorkingMap(documents);
      var statuses: seq<Option<Code>>, i := [], 0;
      while i < |writes|
        invariant i <= |writes|
        invariant BatchAll(documents, writes[..i], now, compare) == Some(Batch(working.documents, statuses))
        invariant unchanged(this)
      {
        assert writes[..i + 1][..i] == writes[..i];
        var status := working.ApplyWrite(writes[i], now, compare);
        i := i + 1;
        if status.Crash? {
          StoppedBatch(documents, writes, i, now, compare);
          return Crashed;
        }
        statuses := statuses + [if status.Refused? then Some(status.code) else None];
      }
      assert writes[..i] == writes;
      documents := working.documents;
      Save(saveOk);
      r := if saveOk then Success(statuses) else SaveFailed;
    }
  }

  /** What the status of one write of a batch says. */
  ghost predicate StatusAt(docs: Documents, ws: seq<WriteOp>, i: nat, now: int, compare: (Value, Value) -> int)
    requires BatchAll(docs, ws, now, compare).Some? && i < |ws|
  {
    && BatchAll(docs, ws[..i], now, compare).Some?
    && var before, status := BatchAll(docs, ws[..i], now, compare).value.docs, BatchAll(docs, ws, now, compare).value.status[i];
       && (status == Some(FailedPrecondition) <==> !ws[i].NoOperation? && !Meets(before, ws[i]))
       && (status == None ==> !ws[i].NoOperation? && Meets(before, ws[i]))
  }

  lemma {:induction false} StoppedFold(docs: Documents, ws: seq<WriteOp>, n: nat, now: int, compare: (Value, Value) -> int)
    requires n <= |ws| && !Fold(docs, ws[..n], now, compare).status.Accepted?
    ensures Fold(docs, ws, now, compare) == Fold(docs, ws[..n], now, compare)
    decreases |ws| - n
  {
    hide Apply;
    if n < |ws| {
      assert ws[..n + 1][..n] == ws[..n];
      StoppedFold(docs, ws, n + 1, now, compare);
    } else {
      assert ws[..n] == ws;
    }
  }

  lemma {:induction false} StoppedBatch(docs: Documents, ws: seq<WriteOp>, n: nat, now: int, compare: (Value, Value) -> int)
    requires n <= |ws| && BatchAll(docs, ws[..n], now, compare).None?
    ensures BatchAll(docs, ws, now, compare).None?
    decreases |ws| - n
  {
    hide Apply;
    if n < |ws| {
      assert ws[..n + 1][..n] == ws[..n];
      StoppedBatch(docs, ws, n + 1, now, compare);
    } else {
      assert ws[..n] == ws;
    }
  }
}
