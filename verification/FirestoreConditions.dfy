/**
 Preconditions, in terms of the documents alone: which writes are accepted, with what times, and that
 of two writes that rely on the same update time at most one is.
 */
module FirestoreConditions {
  import opened Common
  import opened Durable
  import opened FirestoreFields
  import opened Firestore

  /** The document exists exactly if the write says so, and was last changed when it says. */
  predicate Meets(docs: Documents, w: WriteOp)
    requires !w.NoOperation?
  {
    && (w.precondition.Exists? ==> (w.name in docs <==> w.precondition.exists_))
    && (w.precondition.UpdatedAt? ==> w.name in docs && docs[w.name].updateTime == w.precondition.time)
  }

  /** A write names a document and relies on its update time being `t`. */
  predicate ReliesOn(w: WriteOp, name: string, t: int) {
    !w.NoOperation? && w.name == name && w.precondition == UpdatedAt(t)
  }

  lemma {:induction false} TransformsFail(f: Fields, name: string, ts: seq<Transform>, now: int, compare: (Value, Value) -> int)
    ensures ApplyTransforms(f, name, ts, now, compare).Failed? ==> ApplyTransforms(f, name, ts, now, compare).code == InvalidArgument
  {
    if ts != [] { TransformsFail(f, name, ts[..|ts| - 1], now, compare); }
  }

  /** A write is refused with FailedPrecondition exactly when its precondition is not met. */
  lemma RefusedIff(docs: Documents, w: WriteOp, now: int, compare: (Value, Value) -> int)
    requires !w.NoOperation?
    ensures Apply(docs, w, now, compare).status == Refused(FailedPrecondition) <==> !Meets(docs, w)
    ensures Apply(docs, w, now, compare).status == Refused(NotFound) <==> Meets(docs, w) && w.TransformOnly? && w.name !in docs
  {
    hide ApplyTransforms, ApplyMask, WireFields;
    if !w.Delete? {
      var base := if w.name in docs then docs[w.name].fields else map[];
      TransformsFail(base, w.name, w.transforms, now, compare);
      if w.Update? {
        var masked := if w.mask.None? then Some(WireFields(w.fields)) else ApplyMask(base, w.name, w.fields, w.mask.value);
        if masked.Some? { TransformsFail(masked.value, w.name, w.transforms, now, compare); }
      }
    }
  }

  /** What an accepted write leaves: a deleted document is gone; any other was changed now, and keeps
      the time it was created at, or was created now. */
  ghost predicate Dates(docs: Documents, w: WriteOp, now: int, docs': Documents)
    requires !w.NoOperation?
  {
    if w.Delete? then docs' == docs - {w.name}
    else
      && w.name in docs' && docs'.Keys == docs.Keys + {w.name} && (w.TransformOnly? ==> w.name in docs)
      && docs'[w.name].updateTime == now
      && docs'[w.name].createTime == (if w.name in docs then docs[w.name].createTime else now)
      && forall n <- docs :: n != w.name ==> docs'[n] == docs[n]
  }

  lemma AcceptedMeetsAndDates(docs: Documents, w: WriteOp, now: int, compare: (Value, Value) -> int)
    requires Apply(docs, w, now, compare).status.Accepted?
    ensures !w.NoOperation? && Meets(docs, w) && Dates(docs, w, now, Apply(docs, w, now, compare).docs)
  {
    hide ApplyTransforms, ApplyMask, WireFields;
  }

  /* ------------------------------ Requests ------------------------------ */

  lemma {:induction false} FoldPrefix(docs: Documents, ws: seq<WriteOp>, n: nat, now: int, compare: (Value, Value) -> int)
    requires n <= |ws| && Fold(docs, ws, now, compare).status.Accepted?
    ensures Fold(docs, ws[..n], now, compare).status.Accepted?
    decreases |ws|
  {
    hide Apply;
    if n < |ws| {
      FoldPrefix(docs, ws[..|ws| - 1], n, now, compare);
      assert ws[..|ws| - 1][..n] == ws[..n];
    } else {
      assert ws[..n] == ws;
    }
  }

  /** In a commit that succeeds, every write met its precondition in the documents that the writes
      before it left, and dated its document. */
  lemma CommitMeetsAndDates(docs: Documents, ws: seq<WriteOp>, i: nat, now: int, compare: (Value, Value) -> int)
    requires i < |ws| && Fold(docs, ws, now, compare).status.Accepted?
    ensures !ws[i].NoOperation?
    ensures var before, after := Fold(docs, ws[..i], now, compare).docs, Fold(docs, ws[..i + 1], now, compare).docs;
            Meets(before, ws[i]) && Dates(before, ws[i], now, after)
  {
    hide Apply, Meets, Dates;
    FoldPrefix(docs, ws, i, now, compare);
    FoldPrefix(docs, ws, i + 1, now, compare);
    assert ws[..i + 1][..i] == ws[..i];
    AcceptedMeetsAndDates(Fold(docs, ws[..i], now, compare).docs, ws[i], now, compare);
  }

  /** Write `i` is reached and does not meet its precondition. */
  ghost predicate UnmetAt(docs: Documents, ws: seq<WriteOp>, i: nat, now: int, compare: (Value, Value) -> int)
    requires i < |ws|
  {
    && Fold(docs, ws[..i], now, compare).status.Accepted?
    && !ws[i].NoOperation? && !Meets(Fold(docs, ws[..i], now, compare).docs, ws[i])
  }

  lemma UnmetInPrefix(docs: Documents, ws: seq<WriteOp>, n: nat, i: nat, now: int, compare: (Value, Value) -> int)
    requires i < n <= |ws|
    ensures UnmetAt(docs, ws[..n], i, now, compare) <==> UnmetAt(docs, ws, i, now, compare)
  {
    assert ws[..n][i] == ws[i] && ws[..n][..i] == ws[..i];
  }

  lemma LastUnmetIff(docs: Documents, ws: seq<WriteOp>, now: int, compare: (Value, Value) -> int)
    requires ws != [] && Fold(docs, ws[..|ws| - 1], now, compare).status.Accepted?
    ensures Fold(docs, ws, now, compare).status == Refused(FailedPrecondition) <==> UnmetAt(docs, ws, |ws| - 1, now, compare)
  {
    hide Apply, Meets;
    var w, before := ws[|ws| - 1], Fold(docs, ws[..|ws| - 1], now, compare).docs;
    if w.NoOperation? { NoOperationIsInvalid(before, w, now, compare); } else { RefusedIff(before, w, now, compare); }
  }

  lemma FoldStops(docs: Documents, ws: seq<WriteOp>, now: int, compare: (Value, Value) -> int)
    requires ws != [] && !Fold(docs, ws[..|ws| - 1], now, compare).status.Accepted?
    ensures Fold(docs, ws, now, compare) == Fold(docs, ws[..|ws| - 1], now, compare)
    ensures !UnmetAt(docs, ws, |ws| - 1, now, compare)
  {
    hide Apply;
  }

  /** A commit fails with FailedPrecondition exactly when the first write that is not accepted does not
      meet its precondition. */
  lemma {:induction false} CommitRefusedIff(docs: Documents, ws: seq<WriteOp>, now: int, compare: (Value, Value) -> int)
    ensures Fold(docs, ws, now, compare).status == Refused(FailedPrecondition) <==>
              exists i: nat :: i < |ws| && UnmetAt(docs, ws, i, now, compare)
  {
    if ws != [] {
      hide Fold, UnmetAt;
      var n := |ws| - 1;
      CommitRefusedIff(docs, ws[..n], now, compare);
      forall i: nat | i < n ensures UnmetAt(docs, ws[..n], i, now, compare) <==> UnmetAt(docs, ws, i, now, compare) {
        UnmetInPrefix(docs, ws, n, i, now, compare);
      }
      if Fold(docs, ws[..n], now, compare).status.Accepted? {
        LastUnmetIff(docs, ws, now, compare);
      } else {
        FoldStops(docs, ws, now, compare);
      }
    }
  }

  lemma NoOperationIsInvalid(docs: Documents, w: WriteOp, now: int, compare: (Value, Value) -> int)
    requires w.NoOperation?
    ensures Apply(docs, w, now, compare) == Applied(docs, Refused(InvalidArgument))
  {
  }

  /** In a batch the same holds of every single status. */
  lemma {:induction false} BatchStatusIff(docs: Documents, ws: seq<WriteOp>, i: nat, now: int, compare: (Value, Value) -> int)
    requires BatchAll(docs, ws, now, compare).Some? && i < |ws|
    ensures BatchAll(docs, ws[..i], now, compare).Some? && BatchAll(docs, ws[..i + 1], now, compare).Some?
    ensures var status, before := BatchAll(docs, ws, now, compare).value.status[i], BatchAll(docs, ws[..i], now, compare).value.docs;
            && (status == Some(FailedPrecondition) <==> !ws[i].NoOperation? && !Meets(before, ws[i]))
            && (status == None ==>
                  && !ws[i].NoOperation? && Meets(before, ws[i])
                  && Dates(before, ws[i], now, BatchAll(docs, ws[..i + 1], now, compare).value.docs))
    decreases |ws|
  {
    hide Apply, Meets, Dates;
    var n := |ws| - 1;
    if i < n {
      BatchStatusIff(docs, ws[..n], i, now, compare);
      assert ws[..n][..i] == ws[..i] && ws[..n][..i + 1] == ws[..i + 1] && ws[..n][i] == ws[i];
    } else {
      assert ws[..i + 1] == ws;
      var before := BatchAll(docs, ws[..n], now, compare).value.docs;
      if ws[n].NoOperation? {
        NoOperationIsInvalid(before, ws[n], now, compare);
      } else {
        RefusedIff(before, ws[n], now, compare);
        if Apply(before, ws[n], now, compare).status.Accepted? { AcceptedMeetsAndDates(before, ws[n], now, compare); }
      }
    }
  }

  /* ------------------------------ Optimistic concurrency ------------------------------ */

  /** The document, if it is there, was not last changed at `t`. */
  predicate NotAt(docs: Documents, name: string, t: int) {
    name in docs ==> docs[name].updateTime != t
  }

  lemma ApplyKeepsNotAt(docs: Documents, w: WriteOp, now: int, compare: (Value, Value) -> int, name: string, t: int)
    requires now != t
    ensures var a := Apply(docs, w, now, compare);
            NotAt(docs, name, t) || (a.status.Accepted? && w.name == name) ==> NotAt(a.docs, name, t)
  {
    hide Apply;
    var a := Apply(docs, w, now, compare);
    if a.status.Accepted? {
      AcceptedMeetsAndDates(docs, w, now, compare);
    } else {
      FailedWriteChangesNothing(docs, w, now, compare);
    }
  }

  /** In a batch at another time, once the document is not at `t`, or a write of it is accepted, it stays so. */
  lemma {:induction false} BatchKeepsNotAt(docs: Documents, ws: seq<WriteOp>, now: int, compare: (Value, Value) -> int, name: string, t: int)
    requires BatchAll(docs, ws, now, compare).Some? && now != t
    requires NotAt(docs, name, t)
             || exists i :: 0 <= i < |ws| && BatchAll(docs, ws, now, compare).value.status[i].None? && !ws[i].NoOperation? && ws[i].name == name
    ensures NotAt(BatchAll(docs, ws, now, compare).value.docs, name, t)
  {
    hide Apply, NotAt;
    if ws != [] {
      var n := |ws| - 1;
      var b0, b := BatchAll(docs, ws[..n], now, compare).value, BatchAll(docs, ws, now, compare).value;
      assert b.status[..n] == b0.status;
      ApplyKeepsNotAt(b0.docs, ws[n], now, compare, name, t);
      if NotAt(docs, name, t) {
        BatchKeepsNotAt(docs, ws[..n], now, compare, name, t);
      } else {
        var i :| 0 <= i < |ws| && b.status[i].None? && !ws[i].NoOperation? && ws[i].name == name;
        if i < n {
          assert b0.status[i] == b.status[..n][i] && ws[..n][i] == ws[i];
          BatchKeepsNotAt(docs, ws[..n], now, compare, name, t);
        }
      }
    }
  }

  /** The request accepts its write number `x`: the commit succeeds, or the batch reports it OK. */
  ghost predicate Accepts(docs: Documents, r: Request, x: nat, compare: (Value, Value) -> int) {
    && x < |r.writes|
    && match r
       case CommitRequest(ws, now) => Fold(docs, ws, now, compare).status.Accepted?
       case BatchRequest(ws, now) => BatchAll(docs, ws, now, compare).Some? && BatchAll(docs, ws, now, compare).value.status[x].None?
  }

  /** Either way it is OK in the batch of the same writes, which leaves the same documents. */
  lemma AcceptsInBatch(docs: Documents, r: Request, x: nat, compare: (Value, Value) -> int)
    requires Accepts(docs, r, x, compare)
    ensures BatchAll(docs, r.writes, r.now, compare).Some? && BatchAll(docs, r.writes, r.now, compare).value.status[x].None?
    ensures Perform(docs, r, compare) == Write(BatchAll(docs, r.writes, r.now, compare).value.docs, true)
  {
    hide Fold, BatchAll;
    CommitIsAllOk(docs, r.writes, r.now, compare);
  }

  lemma PerformKeepsNotAt(docs: Documents, r: Request, compare: (Value, Value) -> int, name: string, t: int)
    requires NotAt(docs, name, t) && r.now != t
    ensures NotAt(Perform(docs, r, compare).next, name, t)
  {
    hide Fold, BatchAll, NotAt;
    CommitIsAllOk(docs, r.writes, r.now, compare);
    if BatchAll(docs, r.writes, r.now, compare).Some? { BatchKeepsNotAt(docs, r.writes, r.now, compare, name, t); }
  }

  lemma {:induction false} StaysNotAt(
    states: seq<Store<Documents>>, steps: seq<Step<Request>>, compare: (Value, Value) -> int, name: string, t: int, i: nat, j: nat)
    requires IsRun(Performer(compare), states, steps) && i <= j <= |steps|
    requires NotAt(states[i].live, name, t) && NotAt(states[i].committed, name, t)
    requires forall k :: i <= k < j ==> steps[k].op.now > t
    ensures NotAt(states[j].live, name, t) && NotAt(states[j].committed, name, t)
    decreases j
  {
    hide Perform, NotAt;
    if i < j {
      StaysNotAt(states, steps, compare, name, t, i, j - 1);
      assert StepAt(Performer(compare), states, steps, j - 1);
      PerformKeepsNotAt(states[j - 1].live, steps[j - 1].op, compare, name, t);
    }
  }

  /** A write that relies on `t` is not accepted in a request that meets the document at another time,
      or behind an accepted write of the document in the same request. */
  lemma TooLate(docs: Documents, r: Request, x: nat, compare: (Value, Value) -> int, name: string, t: int)
    requires x < |r.writes| && ReliesOn(r.writes[x], name, t) && r.now != t
    requires NotAt(docs, name, t) || exists y: nat :: y < x && Accepts(docs, r, y, compare) && ReliesOn(r.writes[y], name, t)
    ensures !Accepts(docs, r, x, compare)
  {
    hide BatchAll, Fold, Accepts;
    if Accepts(docs, r, x, compare) {
      var ws := r.writes;
      AcceptsInBatch(docs, r, x, compare);
      BatchStatusIff(docs, ws, x, r.now, compare);
      var before, all := BatchAll(docs, ws[..x], r.now, compare).value, BatchAll(docs, ws, r.now, compare).value;
      if !NotAt(docs, name, t) {
        var y: nat :| y < x && Accepts(docs, r, y, compare) && ReliesOn(ws[y], name, t);
        AcceptsInBatch(docs, r, y, compare);
        StatusOfPrefix(docs, ws, x, y, r.now, compare);
        assert ws[..x][y] == ws[y] && before.status[y].None?;
      }
      BatchKeepsNotAt(docs, ws[..x], r.now, compare, name, t);
    }
  }

  lemma {:induction false} StatusOfPrefix(docs: Documents, ws: seq<WriteOp>, n: nat, i: nat, now: int, compare: (Value, Value) -> int)
    requires i < n <= |ws| && BatchAll(docs, ws, now, compare).Some?
    ensures BatchAll(docs, ws[..n], now, compare).Some?
    ensures BatchAll(docs, ws[..n], now, compare).value.status[i] == BatchAll(docs, ws, now, compare).value.status[i]
    decreases |ws|
  {
    hide Apply;
    if n < |ws| {
      StatusOfPrefix(docs, ws[..|ws| - 1], n, i, now, compare);
      assert ws[..|ws| - 1][..n] == ws[..n];
    } else {
      assert ws[..n] == ws;
    }
  }

  /** Optimistic concurrency: of two writes of one document that rely on the same update time, in one
      request or in two of a run, with requests later than that time, at most one is accepted. */
  lemma AtMostOneAccepted(
    states: seq<Store<Documents>>, steps: seq<Step<Request>>, compare: (Value, Value) -> int, name: string, t: int,
    i: nat, x: nat, j: nat, y: nat)
    requires IsRun(Performer(compare), states, steps) && i <= j < |steps| && (i == j ==> x < y)
    requires forall k :: i <= k <= j ==> steps[k].op.now > t
    requires Accepts(states[i].live, steps[i].op, x, compare) && ReliesOn(steps[i].op.writes[x], name, t)
    requires i < j ==> steps[i].saved
    requires y < |steps[j].op.writes| && ReliesOn(steps[j].op.writes[y], name, t)
    ensures !Accepts(states[j].live, steps[j].op, y, compare)
  {
    hide BatchAll, Fold, Perform, ReliesOn;
    if i < j {
      var docs, r := states[i].live, steps[i].op;
      assert StepAt(Performer(compare), states, steps, i);
      AcceptsInBatch(docs, r, x, compare);
      assert !r.writes[x].NoOperation? && r.writes[x].name == name by { AcceptedIsOn(r.writes[x], name, t); }
      BatchKeepsNotAt(docs, r.writes, r.now, compare, name, t);
      StaysNotAt(states, steps, compare, name, t, i + 1, j);
    }
    hide Accepts;
    TooLate(states[j].live, steps[j].op, y, compare, name, t);
  }

  lemma AcceptedIsOn(w: WriteOp, name: string, t: int)
    requires ReliesOn(w, name, t)
    ensures !w.NoOperation? && w.name == name
  {
  }
}
