/**
 * What a batch of writes means, apart from how the writer stores it.
 * A batch is the history of the accepted writes since the last flush.
 */
module Batches {
  import opened Basics
  import opened RowItems

  /** One accepted write: an entity after mapping, with the string its id column holds. */
  datatype Op = Op(id: string, recorded: nat, deleted: bool, cells: Cells)

  // ---------------------------------------------------------------- the three buffers, as functions of the history

  /** The ids to delete, in order of first appearance. */
  function Ids(batch: seq<Op>): seq<string> {
    if batch == [] then []
    else
      var ids := Ids(Init(batch));
      if Last(batch).id in ids then ids else ids + [Last(batch).id]
  }

  /** Is op older than the write of the same id that is already in the batch? */
  predicate Stale(winners: map<string, Op>, op: Op) {
    op.id in winners && op.recorded < winners[op.id].recorded
  }

  /** The writes to insert, by id. */
  function Winners(batch: seq<Op>): map<string, Op> {
    if batch == [] then map[]
    else
      var w, op := Winners(Init(batch)), Last(batch);
      if op.deleted || Stale(w, op) then w else w[op.id := op]
  }

  /** The counter that is compared with the flush threshold: stale writes do not count. */
  function Size(batch: seq<Op>): nat {
    if batch == [] then 0
    else
      var n, op := Size(Init(batch)), Last(batch);
      if !op.deleted && Stale(Winners(Init(batch)), op) then n else n + 1
  }

  /** What one more write does to the three buffers. */
  lemma {:induction false} Grow(batch: seq<Op>, op: Op)
    ensures Ids(batch + [op]) == if op.id in Ids(batch) then Ids(batch) else Ids(batch) + [op.id]
    ensures op.deleted || Stale(Winners(batch), op) ==> Winners(batch + [op]) == Winners(batch)
    ensures !op.deleted && !Stale(Winners(batch), op) ==> Winners(batch + [op]) == Winners(batch)[op.id := op]
    ensures Size(batch + [op]) == if !op.deleted && Stale(Winners(batch), op) then Size(batch) else Size(batch) + 1
  {
    assert Init(batch + [op]) == batch;
  }

  // ---------------------------------------------------------------- what the buffers hold

  lemma {:induction false} IdsExact(batch: seq<Op>)
    ensures forall id :: id in Ids(batch) <==> exists i :: 0 <= i < |batch| && batch[i].id == id
    ensures forall i, j :: 0 <= i < j < |Ids(batch)| ==> Ids(batch)[i] != Ids(batch)[j]
    ensures |Ids(batch)| <= Size(batch)
    ensures Winners(batch).Keys <= set id | id in Ids(batch)
    ensures Size(batch) == 0 <==> batch == []
  {
    if batch != [] {
      var b, op := Init(batch), Last(batch);
      IdsExact(b);
      InitLast(batch);
      forall id ensures id in Ids(batch) <==> exists i :: 0 <= i < |batch| && batch[i].id == id {
        if id in Ids(batch) {
          if id == op.id {
            assert batch[|b|].id == id;
          } else {
            var i :| 0 <= i < |b| && b[i].id == id;
            assert batch[i].id == id;
          }
        }
      }
      assert Stale(Winners(b), op) ==> b != [];
    }
  }

  predicate Live(batch: seq<Op>, i: int, id: string)
    requires 0 <= i < |batch|
  {
    batch[i].id == id && !batch[i].deleted
  }

  /** Position i holds the last of the non-deleted writes of id whose recorded time is maximal. */
  ghost predicate IsNewest(batch: seq<Op>, i: nat, id: string)
    requires i < |batch|
  {
    && Live(batch, i, id)
    && (forall j :: 0 <= j < |batch| && Live(batch, j, id) ==> batch[j].recorded <= batch[i].recorded)
    && (forall j :: i < j < |batch| && Live(batch, j, id) ==> batch[j].recorded < batch[i].recorded)
  }

  /** An id is inserted iff it has a non-deleted write, and then the newest one is. */
  lemma {:induction false} WinnerIsNewest(batch: seq<Op>, id: string)
    ensures id in Winners(batch) <==> exists i :: 0 <= i < |batch| && Live(batch, i, id)
    ensures id in Winners(batch) ==> exists i :: 0 <= i < |batch| && IsNewest(batch, i, id) && Winners(batch)[id] == batch[i]
  {
    if batch != [] {
      var b, op := Init(batch), Last(batch);
      WinnerIsNewest(b, id);
      InitLast(batch);
      var n := |b|;
      assert batch[n] == op;
      if id in Winners(b) {
        var i :| 0 <= i < |b| && IsNewest(b, i, id) && Winners(b)[id] == b[i];
        assert Live(batch, i, id);
        assert forall j :: 0 <= j < n ==> (Live(batch, j, id) <==> Live(b, j, id));
        if Live(batch, n, id) && b[i].recorded <= op.recorded {
          assert IsNewest(batch, n, id);
        } else {
          assert IsNewest(batch, i, id);
        }
      } else if Live(batch, n, id) {
        assert forall j :: 0 <= j < n ==> (Live(batch, j, id) <==> Live(b, j, id));
        assert IsNewest(batch, n, id);
      } else {
        assert forall j :: 0 <= j < n ==> (Live(batch, j, id) <==> Live(b, j, id));
      }
    }
  }

  /** There is only one newest write, so the winner is determined by the batch alone. */
  lemma {:induction false} NewestIsUnique(batch: seq<Op>, id: string, i: nat)
    requires i < |batch| && IsNewest(batch, i, id)
    ensures id in Winners(batch) && Winners(batch)[id] == batch[i]
  {
    WinnerIsNewest(batch, id);
    var j :| 0 <= j < |batch| && IsNewest(batch, j, id) && Winners(batch)[id] == batch[j];
    assert Live(batch, i, id) && Live(batch, j, id);
  }

  /** A write counts towards the threshold unless an earlier one of its id, not deleted, is newer. */
  predicate Counts(batch: seq<Op>, i: nat)
    requires i < |batch|
  {
    batch[i].deleted || forall j :: 0 <= j < i && Live(batch, j, batch[i].id) ==> batch[j].recorded <= batch[i].recorded
  }

  lemma {:induction false} StaleIff(batch: seq<Op>, op: Op)
    ensures !Stale(Winners(batch), op) <==> forall j :: 0 <= j < |batch| && Live(batch, j, op.id) ==> batch[j].recorded <= op.recorded
  {
    WinnerIsNewest(batch, op.id);
    hide Winners;
    if op.id in Winners(batch) {
      var i :| 0 <= i < |batch| && IsNewest(batch, i, op.id) && Winners(batch)[op.id] == batch[i];
    }
  }

  /** The size is the number of writes that count. */
  lemma {:induction false} SizeCounts(batch: seq<Op>)
    ensures Size(batch) == |set i | 0 <= i < |batch| && Counts(batch, i)|
  {
    hide Counts;
    if batch != [] {
      var b, n := Init(batch), |batch| - 1;
      SizeCounts(b);
      CountsLast(batch);
      hide Winners;
      hide Stale;
      var before, all := set i | 0 <= i < n && Counts(b, i), set i | 0 <= i < |batch| && Counts(batch, i);
      forall i | 0 <= i < n ensures Counts(batch, i) == Counts(b, i) { CountsBefore(batch, i); }
      assert all == if Counts(batch, n) then before + {n} else before;
    }
  }

  lemma CountsBefore(batch: seq<Op>, i: nat)
    requires i < |batch| - 1
    ensures Counts(batch, i) == Counts(Init(batch), i)
  {
    assert forall j :: 0 <= j < |batch| - 1 ==> Init(batch)[j] == batch[j];
    assert forall j :: 0 <= j < i ==> Live(Init(batch), j, batch[i].id) == Live(batch, j, batch[i].id);
  }

  lemma CountsLast(batch: seq<Op>)
    requires batch != []
    ensures Counts(batch, |batch| - 1) <==> Last(batch).deleted || !Stale(Winners(Init(batch)), Last(batch))
  {
    var b, n, op := Init(batch), |batch| - 1, Last(batch);
    StaleIff(b, op);
    assert forall j :: 0 <= j < n ==> b[j] == batch[j];
    assert forall j :: 0 <= j < n ==> Live(b, j, op.id) == Live(batch, j, op.id);
    hide Winners;
    hide Stale;
  }

  // ---------------------------------------------------------------- effect on a table

  function Delete<R>(t: map<string, R>, ids: seq<string>): map<string, R> {
    map k | k in t && k !in ids :: t[k]
  }

  function Insert<R>(t: map<string, R>, w: map<string, Op>, row: Op -> R): map<string, R> {
    map k | k in t.Keys + w.Keys :: if k in w then row(w[k]) else t[k]
  }

  /** Flush: delete every touched id, then insert the winners. */
  function ApplyBatch<R>(t: map<string, R>, batch: seq<Op>, row: Op -> R): map<string, R> {
    Insert(Delete(t, Ids(batch)), Winners(batch), row)
  }

  function ApplyAll<R>(t: map<string, R>, batches: seq<seq<Op>>, row: Op -> R): map<string, R> {
    if batches == [] then t else ApplyBatch(ApplyAll(t, Init(batches), row), Last(batches), row)
  }

  /** The simple form: each write at once, as a delete and then an insert. */
  function Upsert<R>(t: map<string, R>, op: Op, row: Op -> R): map<string, R> {
    var d := Delete(t, [op.id]);
    if op.deleted then d else d[op.id := row(op)]
  }

  function UpsertAll<R>(t: map<string, R>, ops: seq<Op>, row: Op -> R): map<string, R> {
    if ops == [] then t else Upsert(UpsertAll(t, Init(ops), row), Last(ops), row)
  }

  /** The last write of an id, deleted or not. */
  function LastOf(ops: seq<Op>, id: string): (r: Option<Op>)
    ensures r.Some? ==> r.value.id == id
  {
    if ops == [] then None
    else if Last(ops).id == id then Some(Last(ops))
    else LastOf(Init(ops), id)
  }

  lemma {:induction false} LastOfIn(ops: seq<Op>, id: string) returns (i: nat)
    ensures LastOf(ops, id).Some? <==> id in Ids(ops)
    ensures LastOf(ops, id).Some? ==>
              i < |ops| && ops[i] == LastOf(ops, id).value && forall j :: i < j < |ops| ==> ops[j].id != id
  {
    i := 0;
    if ops != [] {
      i := LastOfIn(Init(ops), id);
      InitLast(ops);
      if Last(ops).id == id { i := |ops| - 1; }
    }
  }

  /** In the simple form the last write of an id decides it. */
  lemma {:induction false} UpsertAllAt<R>(t: map<string, R>, ops: seq<Op>, row: Op -> R, id: string)
    ensures var u := UpsertAll(t, ops, row);
            match LastOf(ops, id)
            case None => (id in u <==> id in t) && (id in t ==> u[id] == t[id])
            case Some(op) => (id in u <==> !op.deleted) && (id in u ==> u[id] == row(op))
  {
    if ops != [] { UpsertAllAt(t, Init(ops), row, id); }
  }

  /** For every id of the batch, the winner leaves what the last write asks for. */
  ghost predicate LastWins<R(!new)>(batch: seq<Op>, row: Op -> R) {
    forall id :: id in Ids(batch) ==> LastWinsFor(batch, row, id)
  }

  predicate LastWinsFor<R(==)>(batch: seq<Op>, row: Op -> R, id: string) {
    var last, w := LastOf(batch, id), Winners(batch);
    last.Some? && (id in w <==> !last.value.deleted) && (id in w ==> row(w[id]) == row(last.value))
  }

  /** Exactly when the batched form and the simple form agree, whatever the table holds. */
  lemma {:induction false} BatchEqualsSimple<R(!new)>(t: map<string, R>, batch: seq<Op>, row: Op -> R)
    ensures ApplyBatch(t, batch, row) == UpsertAll(t, batch, row) <==> LastWins(batch, row)
  {
    var a, u := ApplyBatch(t, batch, row), UpsertAll(t, batch, row);
    IdsExact(batch);
    forall id
      ensures id !in Ids(batch) ==> (id in a <==> id in u) && (id in a ==> a[id] == u[id])
      ensures id in Ids(batch) ==> LastOf(batch, id).Some? && (id in a <==> id in Winners(batch)) && (id in u <==> !LastOf(batch, id).value.deleted)
      ensures id in Ids(batch) && id in a ==> a[id] == row(Winners(batch)[id])
      ensures id in Ids(batch) && id in u ==> u[id] == row(LastOf(batch, id).value)
    {
      UpsertAllAt(t, batch, row, id);
      var _ := LastOfIn(batch, id);
    }
    if LastWins(batch, row) {
      assert a.Keys == u.Keys;
    }
  }

  /** Non-deleted writes of an id arrive in the order of their recorded times. */
  ghost predicate Ordered(ops: seq<Op>) {
    forall i, j :: 0 <= i < j < |ops| && ops[i].id == ops[j].id && !ops[i].deleted && !ops[j].deleted ==>
      ops[i].recorded <= ops[j].recorded
  }

  /** The delete of an id comes last although the batch also holds a non-deleted write of it. */
  predicate LosesDelete(batch: seq<Op>, id: string) {
    match LastOf(batch, id) case None => false case Some(op) => op.deleted && id in Winners(batch)
  }

  /** In an ordered batch a lost delete is the only way in which the winner can miss what the last write asks for. */
  lemma {:induction false} OrderedLastWins<R>(batch: seq<Op>, row: Op -> R, id: string)
    requires Ordered(batch) && id in Ids(batch)
    ensures LastWinsFor(batch, row, id) <==> !LosesDelete(batch, id)
  {
    var i := LastOfIn(batch, id);
    if !batch[i].deleted {
      assert IsNewest(batch, i, id);
      NewestIsUnique(batch, id, i);
    }
    hide Ids;
    hide Winners;
    hide LastOf;
  }

  /** For ordered batches, a delete that follows an insert is the only thing that can go wrong. */
  lemma {:induction false} OrderedBatchEqualsSimple<R(!new)>(t: map<string, R>, batch: seq<Op>, row: Op -> R)
    requires Ordered(batch)
    ensures ApplyBatch(t, batch, row) == UpsertAll(t, batch, row) <==> forall id :: id in Ids(batch) ==> !LosesDelete(batch, id)
  {
    BatchEqualsSimple(t, batch, row);
    hide ApplyBatch;
    hide UpsertAll;
    hide LosesDelete;
    hide Ordered;
    hide LastWinsFor;
    hide Ids;
    forall id | id in Ids(batch) ensures LastWinsFor(batch, row, id) <==> !LosesDelete(batch, id) {
      OrderedLastWins(batch, row, id);
    }
  }

  /** An insert followed by a delete of the same id in one batch leaves the row in. */
  lemma {:induction false} LostDelete(a: Op, b: Op, row: Op -> Cells)
    requires a.id == b.id && !a.deleted && b.deleted
    ensures Ordered([a, b]) && LosesDelete([a, b], a.id)
    ensures a.id in ApplyBatch(map[], [a, b], row) && a.id !in UpsertAll(map[], [a, b], row)
  {
    var batch := [a, b];
    assert Init(batch) == [a] && Init([a]) == [];
    assert Winners([a]) == map[a.id := a] && Winners(batch) == Winners([a]);
  }

  // ---------------------------------------------------------------- whole streams

  /** No delete of an id follows a non-deleted write of it. */
  ghost predicate NoDeleteAfterInsert(ops: seq<Op>) {
    forall i, j :: 0 <= i < j < |ops| && ops[i].id == ops[j].id && !ops[i].deleted ==> !ops[j].deleted
  }

  /** The batches of a failure-free run: a batch ends when its size reaches the threshold, the rest is flushed by Close. */
  function Cut(threshold: int, pending: seq<Op>, ops: seq<Op>): seq<seq<Op>>
    decreases |ops|
  {
    if ops == [] then (if pending == [] then [] else [pending])
    else
      var batch := pending + [ops[0]];
      if Size(batch) >= threshold then [batch] + Cut(threshold, [], ops[1..]) else Cut(threshold, batch, ops[1..])
  }

  lemma {:induction false} CutFlattens(threshold: int, pending: seq<Op>, ops: seq<Op>)
    ensures Flatten(Cut(threshold, pending, ops)) == pending + ops
    decreases |ops|
  {
    assert Flatten<Op>([]) == [];
    hide Flatten;
    hide Size;
    if ops == [] {
      if pending != [] { FlattenCons(pending, []); }
      assert pending + ops == pending;
    } else {
      var batch := pending + [ops[0]];
      if Size(batch) >= threshold {
        FlattenCons(batch, Cut(threshold, [], ops[1..]));
        CutFlattens(threshold, [], ops[1..]);
      } else {
        CutFlattens(threshold, batch, ops[1..]);
      }
      assert pending + ops == batch + ops[1..];
    }
  }

  function Max(a: int, b: int): int { if a < b then b else a }

  /** Every batch is non-empty and covers at most max(threshold, 1) ids. */
  lemma {:induction false} CutBounds(threshold: int, pending: seq<Op>, ops: seq<Op>)
    requires pending == [] || Size(pending) < threshold
    ensures forall b :: b in Cut(threshold, pending, ops) ==> b != [] && |Ids(b)| <= Size(b) <= Max(threshold, 1)
    decreases |ops|
  {
    hide Ids;
    hide Size;
    hide Winners;
    IdsExact(pending);
    IdsExact([]);
    if ops != [] {
      var batch := pending + [ops[0]];
      Grow(pending, ops[0]);
      IdsExact(batch);
      if Size(batch) >= threshold {
        CutBounds(threshold, [], ops[1..]);
      } else {
        CutBounds(threshold, batch, ops[1..]);
      }
    }
  }

  /** A batch is ended by the write with which its size reaches the threshold, and the last one by the end of the run. */
  ghost predicate EndsInTime(threshold: int, b: seq<Op>, last: bool) {
    b != [] && (!last ==> Size(b) >= threshold) && (|b| > 1 ==> Size(Init(b)) < threshold)
  }

  lemma {:induction false} CutExact(threshold: int, pending: seq<Op>, ops: seq<Op>, k: nat)
    requires pending == [] || Size(pending) < threshold
    requires |pending| > 1 ==> Size(Init(pending)) < threshold
    requires k < |Cut(threshold, pending, ops)|
    ensures EndsInTime(threshold, Cut(threshold, pending, ops)[k], k == |Cut(threshold, pending, ops)| - 1)
    decreases |ops|
  {
    hide Size;
    if ops != [] {
      var batch := pending + [ops[0]];
      assert Init(batch) == pending;
      if Size(batch) >= threshold {
        if k > 0 { CutExact(threshold, [], ops[1..], k - 1); }
      } else {
        CutExact(threshold, batch, ops[1..], k);
      }
    }
  }

  lemma {:induction false} UpsertAllConcat<R>(t: map<string, R>, a: seq<Op>, b: seq<Op>, row: Op -> R)
    ensures UpsertAll(t, a + b, row) == UpsertAll(UpsertAll(t, a, row), b, row)
  {
    if b == [] {
      assert a + b == a;
    } else {
      assert Init(a + b) == a + Init(b);
      UpsertAllConcat(t, a, Init(b), row);
    }
  }

  /** The last batch that touches the id; empty when none does. */
  function LastBatch(batches: seq<seq<Op>>, id: string): seq<Op> {
    if batches == [] then []
    else if id in Ids(Last(batches)) then Last(batches)
    else LastBatch(Init(batches), id)
  }

  lemma {:induction false} LastBatchIn(batches: seq<seq<Op>>, id: string)
    ensures id in Ids(LastBatch(batches, id)) <==> id in Ids(Flatten(batches))
    ensures id in Ids(Flatten(batches)) ==> LastBatch(batches, id) in batches
  {
    hide Ids;
    EmptyIds();
    if batches != [] {
      LastBatchIn(Init(batches), id);
      IdsOfConcat(Flatten(Init(batches)), Last(batches), id);
      InitLast(batches);
    }
  }

  lemma EmptyIds()
    ensures Ids([]) == []
  {
  }

  lemma {:induction false} IdsOfConcat(a: seq<Op>, b: seq<Op>, id: string)
    ensures id in Ids(a + b) <==> id in Ids(a) || id in Ids(b)
  {
    if b == [] {
      assert a + b == a;
    } else {
      assert Init(a + b) == a + Init(b);
      IdsOfConcat(a, Init(b), id);
    }
  }

  /** The row of one id after a batch, next to the simple form on a table that agrees or differs. */
  lemma {:induction false} BatchAt<R>(t: map<string, R>, batch: seq<Op>, row: Op -> R, id: string)
    ensures var a, u := ApplyBatch(t, batch, row), UpsertAll(t, batch, row);
            if id in Ids(batch) then
              LastOf(batch, id).Some? && (id in a <==> id in Winners(batch)) && (id in a ==> a[id] == row(Winners(batch)[id])) &&
              (id in u <==> !LastOf(batch, id).value.deleted) && (id in u ==> u[id] == row(LastOf(batch, id).value))
            else (id in a <==> id in t) && (id in a ==> a[id] == t[id]) && (id in u <==> id in t) && (id in u ==> u[id] == t[id])
  {
    IdsExact(batch);
    UpsertAllAt(t, batch, row, id);
    var _ := LastOfIn(batch, id);
  }

  /** Two tables hold the same under this id. */
  predicate SameAt<R(==)>(t: map<string, R>, u: map<string, R>, id: string) {
    (id in t <==> id in u) && (id in t ==> t[id] == u[id])
  }

  /** For each id, the batches and the simple form agree iff they do in the last batch that touches the id. */
  lemma {:induction false} LastBatchDecides<R>(t: map<string, R>, batches: seq<seq<Op>>, row: Op -> R, id: string)
    ensures SameAt(ApplyAll(t, batches, row), UpsertAll(t, Flatten(batches), row), id) <==>
            id !in Ids(Flatten(batches)) || LastWinsFor(LastBatch(batches, id), row, id)
  {
    hide Ids;
    hide Winners;
    hide LastOf;
    EmptyIds();
    if batches != [] {
      var init, last := Init(batches), Last(batches);
      var a, u := ApplyAll(t, init, row), UpsertAll(t, Flatten(init), row);
      LastBatchDecides(t, init, row, id);
      IdsOfConcat(Flatten(init), last, id);
      UpsertAllConcat(t, Flatten(init), last, row);
      assert ApplyAll(t, batches, row) == ApplyBatch(a, last, row);
      hide ApplyBatch;
      hide ApplyAll;
      hide UpsertAll;
      BatchAt(a, last, row, id);
      BatchAt(u, last, row, id);
    }
  }

  /** Exactly when a run of batches does what the simple form does: the last batch of every id leaves what its last write asks for. */
  lemma {:induction false} BatchesEqualSimple<R>(t: map<string, R>, batches: seq<seq<Op>>, row: Op -> R)
    ensures ApplyAll(t, batches, row) == UpsertAll(t, Flatten(batches), row) <==>
            forall id :: id in Ids(Flatten(batches)) ==> LastWinsFor(LastBatch(batches, id), row, id)
  {
    hide LastWinsFor;
    hide Ids;
    hide ApplyAll;
    hide UpsertAll;
    hide SameAt;
    var a, u := ApplyAll(t, batches, row), UpsertAll(t, Flatten(batches), row);
    SameEverywhere(a, u);
    if a == u {
      forall id | id in Ids(Flatten(batches)) ensures LastWinsFor(LastBatch(batches, id), row, id) {
        LastBatchDecides(t, batches, row, id);
        assert SameAt(a, u, id);
      }
    } else {
      var id :| !SameAt(a, u, id);
      LastBatchDecides(t, batches, row, id);
    }
  }

  lemma SameEverywhere<R>(t: map<string, R>, u: map<string, R>)
    ensures t == u <==> forall id :: SameAt(t, u, id)
  {
    if forall id :: SameAt(t, u, id) {
      assert forall id :: SameAt(t, u, id) ==> (id in t <==> id in u);
    }
  }

  /** When every batch is ordered: exactly when the last batch of no id loses the delete that ends it. */
  lemma {:induction false} OrderedBatchesEqualSimple<R>(t: map<string, R>, batches: seq<seq<Op>>, row: Op -> R)
    requires forall b :: b in batches ==> Ordered(b)
    ensures ApplyAll(t, batches, row) == UpsertAll(t, Flatten(batches), row) <==>
            forall id :: id in Ids(Flatten(batches)) ==> !LosesDelete(LastBatch(batches, id), id)
  {
    BatchesEqualSimple(t, batches, row);
    hide ApplyAll;
    hide UpsertAll;
    hide Ids;
    hide LosesDelete;
    hide LastWinsFor;
    hide Ordered;
    forall id | id in Ids(Flatten(batches))
      ensures LastWinsFor(LastBatch(batches, id), row, id) <==> !LosesDelete(LastBatch(batches, id), id)
    {
      LastBatchIn(batches, id);
      OrderedLastWins(LastBatch(batches, id), row, id);
    }
  }

  lemma {:induction false} PartsInherit(parts: seq<seq<Op>>)
    requires Ordered(Flatten(parts)) && NoDeleteAfterInsert(Flatten(parts))
    ensures forall b :: b in parts ==> Ordered(b) && NoDeleteAfterInsert(b)
  {
    if parts != [] {
      var f, b := Flatten(Init(parts)), Last(parts);
      SplitInherits(f, b);
      PartsInherit(Init(parts));
      InitLast(parts);
    }
  }

  lemma SplitInherits(a: seq<Op>, b: seq<Op>)
    requires Ordered(a + b) && NoDeleteAfterInsert(a + b)
    ensures Ordered(a) && NoDeleteAfterInsert(a) && Ordered(b) && NoDeleteAfterInsert(b)
  {
    assert forall i :: 0 <= i < |b| ==> (a + b)[|a| + i] == b[i];
    assert forall i :: 0 <= i < |a| ==> (a + b)[i] == a[i];
  }

  lemma NothingLost(batch: seq<Op>, id: string)
    requires NoDeleteAfterInsert(batch)
    ensures !LosesDelete(batch, id)
  {
    var i := LastOfIn(batch, id);
    WinnerIsNewest(batch, id);
    hide Winners;
    hide LastOf;
    hide Ids;
  }

  /** If the condition holds over the stream, the result is that of the simple form for every threshold. */
  lemma {:induction false} ThresholdIrrelevant<R>(t: map<string, R>, threshold: int, ops: seq<Op>, row: Op -> R)
    requires Ordered(ops) && NoDeleteAfterInsert(ops)
    ensures ApplyAll(t, Cut(threshold, [], ops), row) == UpsertAll(t, ops, row)
  {
    hide *;
    var batches := Cut(threshold, [], ops);
    CutFlattens(threshold, [], ops);
    assert [] + ops == ops;
    PartsInherit(batches);
    OrderedBatchesEqualSimple(t, batches, row);
    forall id | id in Ids(Flatten(batches)) ensures !LosesDelete(LastBatch(batches, id), id) {
      LastBatchIn(batches, id);
      NothingLost(LastBatch(batches, id), id);
    }
  }
}
