/**
 Firestore writes (internal/server/firestore.go, internal/state/gcp_services.go): updates, masks,
 transforms and preconditions on a working copy of the documents, one commit for all.
 */
module Firestore {
  import opened Common
  import opened Durable
  import opened FirestoreFields

  /** A stored document; its fields are in encoded form. */
  datatype Document = Document(fields: Fields, createTime: int, updateTime: int)

  type Documents = map<string, Document>

  datatype Code = FailedPrecondition | InvalidArgument | NotFound

  /** The fields a call computes, unless it fails with a status or panics. */
  datatype Outcome<+T> = Done(value: T) | Failed(code: Code) | Panicked

  /* ------------------------------ Transforms ------------------------------ */

  datatype Transform =
    | ServerTime(path: string)
    | Increment(path: string, amount: Option<Value>)
    | Maximum(path: string, operand: Value)
    | Minimum(path: string, operand: Value)
    | AppendMissing(path: string, candidates: seq<Value>)
    | RemoveAll(path: string, candidates: seq<Value>)
    | Unsupported(path: string)

  /** int64 arithmetic. */
  function Wrap64(n: int): int {
    (n + 0x8000_0000_0000_0000) % 0x1_0000_0000_0000_0000 - 0x8000_0000_0000_0000
  }

  function IntegerOf(v: Value): int {
    if v.Integer? then v.i else 0
  }

  /** `firestoreNumber`, over the reals. */
  function NumberOf(v: Value): real {
    if v.Double? then v.r else IntegerOf(v) as real
  }

  function Incremented(current: Option<Value>, amount: Option<Value>): Value {
    if amount.None? then Integer(0)
    else if current.None? then Wire(amount.value)
    else if current.value.Double? || amount.value.Double? then Double(NumberOf(current.value) + NumberOf(amount.value))
    else Integer(Wrap64(IntegerOf(current.value) + IntegerOf(amount.value)))
  }

  predicate Contains(values: seq<Value>, v: Value) {
    exists i :: 0 <= i < |values| && Equal(values[i], v)
  }

  function ElementsOf(current: Option<Value>): seq<Value> {
    if current.Some? && current.value.Array? then current.value.elements else []
  }

  function WithMissing(values: seq<Value>, candidates: seq<Value>): seq<Value> {
    if candidates == [] then values
    else
      var n := |candidates| - 1;
      var before := WithMissing(values, candidates[..n]);
      if Contains(before, candidates[n]) then before else before + [Wire(candidates[n])]
  }

  function Without(values: seq<Value>, candidates: seq<Value>): seq<Value> {
    if values == [] then []
    else
      var n := |values| - 1;
      Without(values[..n], candidates) + (if Contains(candidates, values[n]) then [] else [Wire(values[n])])
  }

  /** The value a transform stores; `compare` is `compareFirestoreValues`. */
  function Transformed(current: Option<Value>, t: Transform, now: int, compare: (Value, Value) -> int): Option<Value> {
    match t
    case ServerTime(_) => Some(Timestamp(now))
    case Increment(_, amount) => Some(Incremented(current, amount))
    case Maximum(_, v) => Some(if current.Some? && compare(current.value, Wire(v)) >= 0 then Wire(current.value) else Wire(v))
    case Minimum(_, v) => Some(if current.Some? && compare(current.value, Wire(v)) <= 0 then Wire(current.value) else Wire(v))
    case AppendMissing(_, candidates) => Some(Array(WithMissing(ElementsOf(current), candidates)))
    case RemoveAll(_, candidates) => Some(Array(Without(ElementsOf(current), candidates)))
    case Unsupported(_) => None
  }

  function ApplyTransforms(f: Fields, name: string, ts: seq<Transform>, now: int, compare: (Value, Value) -> int): Outcome<Fields> {
    if ts == [] then Done(f)
    else
      var n := |ts| - 1;
      match ApplyTransforms(f, name, ts[..n], now, compare)
      case Failed(c) => Failed(c)
      case Panicked => Panicked
      case Done(before) =>
        var v := Transformed(Field(name, before, ts[n].path), ts[n], now, compare);
        if v.None? then Failed(InvalidArgument)
        else
          var after := Set(before, Split(ts[n].path), v.value);
          if after.None? then Panicked else Done(after.value)
  }

  /* ------------------------------ Writes ------------------------------ */

  datatype Precondition = Unconditional | Exists(exists_: bool) | UpdatedAt(time: int)

  predicate Holds(existing: Option<Document>, p: Precondition) {
    match p
    case Unconditional => true
    case Exists(e) => e == existing.Some?
    case UpdatedAt(t) => existing.Some? && existing.value.updateTime == t
  }

  datatype WriteOp =
    | Update(name: string, fields: Fields, mask: Option<seq<string>>, transforms: seq<Transform>, precondition: Precondition)
    | Delete(name: string, precondition: Precondition)
    | TransformOnly(name: string, transforms: seq<Transform>, precondition: Precondition)
    | NoOperation

  function Existing(docs: Documents, name: string): Option<Document> {
    if name in docs then Some(docs[name]) else None
  }

  datatype Status = Accepted | Refused(code: Code) | Crash

  /** The working map as a write leaves it, whether it succeeds or not. */
  datatype Applied = Applied(docs: Documents, status: Status)

  /** `applyFirestoreWrite`. */
  function Apply(docs: Documents, w: WriteOp, now: int, compare: (Value, Value) -> int): Applied {
    match w
    case NoOperation => Applied(docs, Refused(InvalidArgument))
    case Delete(name, p) =>
      if !Holds(Existing(docs, name), p) then Applied(docs, Refused(FailedPrecondition)) else Applied(docs - {name}, Accepted)
    case TransformOnly(name, ts, p) =>
      if !Holds(Existing(docs, name), p) then Applied(docs, Refused(FailedPrecondition))
      else if name !in docs then Applied(docs, Refused(NotFound))
      else Finish(docs, name, ApplyTransforms(docs[name].fields, name, ts, now, compare), docs[name].createTime, now)
    case Update(name, fields, mask, ts, p) =>
      if !Holds(Existing(docs, name), p) then Applied(docs, Refused(FailedPrecondition))
      else
        var base := if name in docs then docs[name].fields else map[];
        var masked := if mask.None? then Some(WireFields(fields)) else ApplyMask(base, name, fields, mask.value);
        if masked.None? then Applied(docs, Crash)
        else Finish(docs, name, ApplyTransforms(masked.value, name, ts, now, compare),
                    if name in docs then docs[name].createTime else now, now)
  }

  /** Encodes and stores the changed document. */
  function Finish(docs: Documents, name: string, f: Outcome<Fields>, createTime: int, now: int): Applied {
    match f
    case Failed(c) => Applied(docs, Refused(c))
    case Panicked => Applied(docs, Crash)
    case Done(fields) => Applied(docs[name := Document(WireFields(fields), createTime, now)], Accepted)
  }

  /** A write that fails or panics has not touched the working map. */
  lemma FailedWriteChangesNothing(docs: Documents, w: WriteOp, now: int, compare: (Value, Value) -> int)
    ensures !Apply(docs, w, now, compare).status.Accepted? ==> Apply(docs, w, now, compare).docs == docs
  {
    hide ApplyTransforms, ApplyMask, WireFields;
  }

  /** All writes in order, up to the first that does not succeed. */
  function Fold(docs: Documents, ws: seq<WriteOp>, now: int, compare: (Value, Value) -> int): Applied {
    if ws == [] then Applied(docs, Accepted)
    else
      var before := Fold(docs, ws[..|ws| - 1], now, compare);
      if before.status.Accepted? then Apply(before.docs, ws[|ws| - 1], now, compare) else before
  }

  /* ------------------------------ Batch ------------------------------ */

  /** What `BatchWrite` has after some writes: the working map and a status a write, `None` for OK. */
  datatype Batch = Batch(docs: Documents, status: seq<Option<Code>>)

  /** Every write works on the map that the one before it left, failed or not; `None` is a panic. */
  function BatchAll(docs: Documents, ws: seq<WriteOp>, now: int, compare: (Value, Value) -> int): (b: Option<Batch>)
    ensures b.Some? ==> |b.value.status| == |ws|
  {
    if ws == [] then Some(Batch(docs, []))
    else
      var before := BatchAll(docs, ws[..|ws| - 1], now, compare);
      if before.None? then None
      else
        var a := Apply(before.value.docs, ws[|ws| - 1], now, compare);
        match a.status
        case Accepted => Some(Batch(a.docs, before.value.status + [None]))
        case Refused(c) => Some(Batch(a.docs, before.value.status + [Some(c)]))
        case Crash => None
  }

  function Selected(ws: seq<WriteOp>, status: seq<Option<Code>>): seq<WriteOp>
    requires |ws| == |status|
  {
    if ws == [] then []
    else
      var n := |ws| - 1;
      Selected(ws[..n], status[..n]) + (if status[n].None? then [ws[n]] else [])
  }

  lemma FoldSnoc(docs: Documents, ws: seq<WriteOp>, w: WriteOp, now: int, compare: (Value, Value) -> int)
    ensures var before := Fold(docs, ws, now, compare);
            Fold(docs, ws + [w], now, compare) == if before.status.Accepted? then Apply(before.docs, w, now, compare) else before
  {
    hide Apply;
    assert (ws + [w])[..|ws|] == ws;
  }

  /** A batch leaves the documents of the fold of exactly the writes it reports OK. */
  lemma {:induction false} BatchIsFoldOfOk(docs: Documents, ws: seq<WriteOp>, now: int, compare: (Value, Value) -> int)
    requires BatchAll(docs, ws, now, compare).Some?
    ensures var b := BatchAll(docs, ws, now, compare).value;
            Fold(docs, Selected(ws, b.status), now, compare) == Applied(b.docs, Accepted)
  {
    hide Apply, Fold;
    if ws == [] {
      assert Fold(docs, [], now, compare) == Applied(docs, Accepted) by { FoldOfNone(docs, now, compare); }
    } else {
      var n := |ws| - 1;
      BatchIsFoldOfOk(docs, ws[..n], now, compare);
      var b0, b := BatchAll(docs, ws[..n], now, compare).value, BatchAll(docs, ws, now, compare).value;
      FailedWriteChangesNothing(b0.docs, ws[n], now, compare);
      assert b.status[..n] == b0.status;
      var chosen := Selected(ws[..n], b0.status);
      assert Selected(ws, b.status) == chosen + if b.status[n].None? then [ws[n]] else [];
      hide Selected, BatchAll;
      FoldSnoc(docs, chosen, ws[n], now, compare);
      assert chosen + [] == chosen;
    }
  }

  lemma FoldOfNone(docs: Documents, now: int, compare: (Value, Value) -> int)
    ensures Fold(docs, [], now, compare) == Applied(docs, Accepted)
  {
  }

  /** A commit succeeds exactly when every write of the batch would be OK, and then with the same documents. */
  lemma {:induction false} CommitIsAllOk(docs: Documents, ws: seq<WriteOp>, now: int, compare: (Value, Value) -> int)
    ensures Fold(docs, ws, now, compare).status.Accepted? <==>
              BatchAll(docs, ws, now, compare).Some? && forall i :: 0 <= i < |ws| ==> BatchAll(docs, ws, now, compare).value.status[i].None?
    ensures Fold(docs, ws, now, compare).status.Accepted? ==> BatchAll(docs, ws, now, compare).value.docs == Fold(docs, ws, now, compare).docs
  {
    hide Apply;
    if ws != [] {
      var n := |ws| - 1;
      CommitIsAllOk(docs, ws[..n], now, compare);
      var b := BatchAll(docs, ws, now, compare);
      if b.Some? {
        var b0 := BatchAll(docs, ws[..n], now, compare).value;
        assert b.value.status[..n] == b0.status;
        assert forall i :: 0 <= i < n ==> b.value.status[i] == b.value.status[..n][i];
        assert b.value.status[n].None? == Apply(b0.docs, ws[n], now, compare).status.Accepted?;
      }
    }
  }

  /* ------------------------------ Create times ------------------------------ */

  lemma ApplyKeepsCreateTime(docs: Documents, w: WriteOp, now: int, compare: (Value, Value) -> int, name: string)
    requires name in docs && !(w.Delete? && w.name == name)
    ensures name in Apply(docs, w, now, compare).docs
    ensures Apply(docs, w, now, compare).docs[name].createTime == docs[name].createTime
  {
    hide ApplyTransforms, ApplyMask, WireFields;
  }

  /** Until it is deleted, a document keeps its create time through every update and transform. */
  lemma {:induction false} CreateTimeSurvives(docs: Documents, ws: seq<WriteOp>, now: int, compare: (Value, Value) -> int, name: string)
    requires name in docs
    requires forall w <- ws :: !(w.Delete? && w.name == name)
    ensures name in Fold(docs, ws, now, compare).docs
    ensures Fold(docs, ws, now, compare).docs[name].createTime == docs[name].createTime
  {
    hide Apply;
    if ws != [] {
      var n := |ws| - 1;
      assert forall w <- ws[..n] :: w in ws;
      CreateTimeSurvives(docs, ws[..n], now, compare, name);
      assert ws[n] in ws;
      ApplyKeepsCreateTime(Fold(docs, ws[..n], now, compare).docs, ws[n], now, compare, name);
    }
  }

  datatype Request = CommitRequest(writes: seq<WriteOp>, now: int) | BatchRequest(writes: seq<WriteOp>, now: int)

  /** The documents a request leaves in memory; it saves unless a write of a commit fails or one panics. */
  function Perform(docs: Documents, r: Request, compare: (Value, Value) -> int): Write<Documents> {
    match r
    case CommitRequest(ws, now) =>
      var folded := Fold(docs, ws, now, compare);
      if folded.status.Accepted? then Write(folded.docs, true) else Write(docs, false)
    case BatchRequest(ws, now) =>
      var b := BatchAll(docs, ws, now, compare);
      if b.Some? then Write(b.value.docs, true) else Write(docs, false)
  }

  function Performer(compare: (Value, Value) -> int): (Documents, Request) -> Write<Documents> {
    (docs, r) => Perform(docs, r, compare)
  }

  predicate Deletes(r: Request, name: string) {
    exists w <- r.writes :: w.Delete? && w.name == name
  }

  lemma PerformKeepsCreateTime(docs: Documents, r: Request, compare: (Value, Value) -> int, name: string)
    requires name in docs && !Deletes(r, name)
    ensures name in Perform(docs, r, compare).next && Perform(docs, r, compare).next[name].createTime == docs[name].createTime
  {
    hide Apply, Fold, BatchAll;
    assert forall w <- r.writes :: !(w.Delete? && w.name == name);
    if r.CommitRequest? {
      CreateTimeSurvives(docs, r.writes, r.now, compare, name);
    } else if BatchAll(docs, r.writes, r.now, compare).Some? {
      var status := BatchAll(docs, r.writes, r.now, compare).value.status;
      BatchIsFoldOfOk(docs, r.writes, r.now, compare);
      SelectedAreWrites(r.writes, status);
      CreateTimeSurvives(docs, Selected(r.writes, status), r.now, compare, name);
    }
  }

  /** Over every run of commits and batches, whichever fail, panic or are not saved, a document keeps
      its create time, in memory and on disk, until a request deletes it. */
  lemma {:induction false} CreateTimeSurvivesRuns(
    states: seq<Store<Documents>>, steps: seq<Step<Request>>, compare: (Value, Value) -> int, name: string, i: nat)
    requires IsRun(Performer(compare), states, steps) && i < |states|
    requires name in states[0].live && states[0].live == states[0].committed
    requires forall k :: 0 <= k < i ==> !Deletes(steps[k].op, name)
    ensures name in states[i].live && states[i].live[name].createTime == states[0].live[name].createTime
    ensures name in states[i].committed && states[i].committed[name].createTime == states[0].live[name].createTime
  {
    hide Perform;
    if i > 0 {
      CreateTimeSurvivesRuns(states, steps, compare, name, i - 1);
      assert StepAt(Performer(compare), states, steps, i - 1);
      PerformKeepsCreateTime(states[i - 1].live, steps[i - 1].op, compare, name);
    }
  }

  /** Erasing the requests whose save failed changes nothing. */
  lemma FirestoreFailuresLeaveNoTrace(states: seq<Store<Documents>>, steps: seq<Step<Request>>, compare: (Value, Value) -> int)
    returns (kept: seq<Store<Documents>>)
    requires IsRun(Performer(compare), states, steps) && states[0].live == states[0].committed
    ensures IsRun(Performer(compare), kept, Succeeding(steps)) && kept[0] == states[0] && kept[|kept| - 1] == states[|steps|]
  {
    hide Fold, BatchAll;
    var perform := Performer(compare);
    forall i: nat | i < |steps| ensures DisciplinedAt(perform, states, steps, i) {
      assert StepAt(perform, states, steps, i);
    }
    hide Perform;
    kept := FailedSavesLeaveNoTrace(perform, states, steps);
  }

  /** Two runs that differ only in requests whose save fails agree in every state and every commit. */
  lemma FirestoreFailuresDoNotMatter(
    states: seq<Store<Documents>>, steps: seq<Step<Request>>, states': seq<Store<Documents>>, steps': seq<Step<Request>>,
    compare: (Value, Value) -> int, n: nat)
    requires IsRun(Performer(compare), states, steps) && IsRun(Performer(compare), states', steps')
    requires n <= |steps| == |steps'| && states[0] == states'[0]
    requires forall i: nat :: i < |steps| ==> SameUnlessFailed(Performer(compare), states, steps, states', steps', i)
    ensures states[n] == states'[n]
  {
    FailedMutationsDoNotMatter(Performer(compare), states, steps, states', steps', n);
  }

  lemma {:induction false} SelectedAreWrites(ws: seq<WriteOp>, status: seq<Option<Code>>)
    requires |ws| == |status|
    ensures forall w <- Selected(ws, status) :: w in ws
  {
    if ws != [] { SelectedAreWrites(ws[..|ws| - 1], status[..|ws| - 1]); }
  }

  /** A write touches one document only. */
  lemma ApplyTouchesOne(docs: Documents, w: WriteOp, now: int, compare: (Value, Value) -> int, other: string)
    requires (w.NoOperation? || w.name != other)
    ensures Existing(Apply(docs, w, now, compare).docs, other) == Existing(docs, other)
  {
    hide ApplyTransforms, ApplyMask, WireFields;
  }

  /* ------------------------------ Array transforms ------------------------------ */

  /** Appending keeps what was there as a prefix and makes every candidate a member, adding nothing else. */
  lemma {:induction false} AppendMissingAdds(values: seq<Value>, candidates: seq<Value>)
    ensures values <= WithMissing(values, candidates)
    ensures forall i :: 0 <= i < |candidates| ==> Contains(WithMissing(values, candidates), candidates[i])
    ensures forall i :: |values| <= i < |WithMissing(values, candidates)| ==> Contains(candidates, WithMissing(values, candidates)[i])
  {
    if candidates != [] {
      var n := |candidates| - 1;
      AppendMissingAdds(values, candidates[..n]);
      var before, after := WithMissing(values, candidates[..n]), WithMissing(values, candidates);
      assert forall v :: Contains(before, v) ==> Contains(after, v) by {
        forall v | Contains(before, v) ensures Contains(after, v) {
          var i :| 0 <= i < |before| && Equal(before[i], v);
          assert after[i] == before[i];
        }
      }
      WireTwice(candidates[n]);
      assert Contains(after, candidates[n]) by {
        if !Contains(before, candidates[n]) { assert Equal(after[|before|], candidates[n]); }
      }
      forall i | |values| <= i < |after| ensures Contains(candidates, after[i]) {
        if i < |before| {
          var j :| 0 <= j < n && Equal(candidates[..n][j], before[i]);
          assert Equal(candidates[j], after[i]);
        } else {
          assert Equal(candidates[n], after[i]);
        }
      }
      forall i | 0 <= i < |candidates| ensures Contains(after, candidates[i]) {
        if i < n { assert candidates[..n][i] == candidates[i]; }
      }
    }
  }

  /** Appending again changes nothing. */
  lemma AppendMissingTwice(values: seq<Value>, candidates: seq<Value>)
    ensures WithMissing(WithMissing(values, candidates), candidates) == WithMissing(values, candidates)
  {
    AppendMissingAdds(values, candidates);
    AllPresent(WithMissing(values, candidates), candidates);
  }

  lemma {:induction false} AllPresent(values: seq<Value>, candidates: seq<Value>)
    requires forall i :: 0 <= i < |candidates| ==> Contains(values, candidates[i])
    ensures WithMissing(values, candidates) == values
  {
    if candidates != [] {
      var n := |candidates| - 1;
      assert forall i :: 0 <= i < n ==> candidates[..n][i] == candidates[i];
      AllPresent(values, candidates[..n]);
    }
  }

  lemma ContainsLast(values: seq<Value>, last: Value, v: Value)
    ensures Contains(values + [last], v) <==> Contains(values, v) || Equal(last, v)
  {
    var all := values + [last];
    if Contains(values, v) {
      var i :| 0 <= i < |values| && Equal(values[i], v);
      assert Equal(all[i], v);
    }
    assert all[|values|] == last;
  }

  /** Up to `proto.Equal`, removing leaves exactly the elements that are no candidate. */
  lemma {:induction false} RemoveAllRemoves(values: seq<Value>, candidates: seq<Value>, v: Value)
    ensures Contains(Without(values, candidates), v) <==> Contains(values, v) && !Contains(candidates, v)
  {
    if values != [] {
      var n := |values| - 1;
      RemoveAllRemoves(values[..n], candidates, v);
      assert values == values[..n] + [values[n]];
      ContainsLast(values[..n], values[n], v);
      WireTwice(values[n]);
      var rest := Without(values[..n], candidates);
      ContainsLast(rest, Wire(values[n]), v);
      assert rest + [] == rest;
      if Equal(values[n], v) { assert Contains(candidates, values[n]) == Contains(candidates, v); }
    }
  }
}
