/** The batching writer: three buffers, and statements built as text when a write is buffered or flushed. */
module Writer {
  import opened Basics
  import opened RowItems
  import opened Batches
  import opened Statements
  import opened SqlText
  import opened Database
  import Spec = WriterSpec
  import opened WriterSpec
  import opened Gathering

  datatype EntityInsert = EntityInsert(id: string, recorded: nat, rowItem: RowItem, insertString: string)

  /** The entry of k is the newest write of k, and its text is the INSERT of that very write. */
  ghost predicate EntryOf(cfg: Config, k: string, entry: EntityInsert, op: Op)
    reads entry.rowItem
  {
    && entry.id == k == op.id
    && entry.recorded == op.recorded
    && entry.rowItem.Valid()
    && entry.rowItem.Contents() == op.cells
    && entry.insertString == StmtText(InsertStmt(cfg, op.cells))
  }

  class MysqlWriter {
    const cfg: Config
    const tx: Tx
    var batchInserts: map<string, EntityInsert>
    var deleteIds: seq<string>
    var batchSize: int
    /** The writes accepted since the last successful flush by Write. */
    ghost var batch: seq<Op>
    /** All entities handed to Write since then, accepted or not. */
    ghost var given: seq<Entity>

    /** newMysqlWriter followed by begin, which hands over an open transaction. */
    constructor (cfg: Config, tx: Tx)
      requires tx.env.Valid()
      ensures Valid() && this.cfg == cfg && this.tx == tx && batch == [] && given == []
    {
      this.cfg, this.tx := cfg, tx;
      batchInserts, deleteIds, batchSize := map[], [], 0;
      batch, given := [], [];
      NothingGathered(cfg);
    }

    ghost function Items(): set<RowItem>
      reads this
    {
      set k | k in batchInserts :: batchInserts[k].rowItem
    }

    /** The buffers are what the history says they are. */
    ghost predicate Valid()
      reads this, Items()
    {
      && tx.env.Valid()
      && Gathers(cfg, given, batch)
      && deleteIds == Ids(batch)
      && batchSize == Size(batch)
      && batchInserts.Keys == Winners(batch).Keys
      && forall k :: k in batchInserts ==> EntryOf(cfg, k, batchInserts[k], Winners(batch)[k])
    }

    /** The pending statements are the INSERTs of the winners. */
    ghost predicate Texts()
      reads this
    {
      && batchInserts.Keys == Winners(batch).Keys
      && forall k :: k in batchInserts ==> batchInserts[k].insertString == StmtText(InsertStmt(cfg, Winners(batch)[k].cells))
    }

    /**
     * What is pending, stated on the entities: the ids to delete are those that some entity holds, and
     * the pending insert of an id carries the recorded time and the cells of its newest version, as the
     * text of their INSERT; there is none when every version is deleted.
     */
    ghost predicate Pending()
      reads this, Items()
    {
      forall id ::
        && (id in deleteIds <==> Touches(cfg, given, id))
        && (id in batchInserts <==> Lives(cfg, given, id))
        && (id in batchInserts ==> exists i :: 0 <= i < |given| && NewestVersion(cfg, given, i, id) && IsEntryOf(batchInserts[id], given[i]))
    }

    ghost predicate IsEntryOf(entry: EntityInsert, e: Entity)
      reads entry.rowItem
    {
      && entry.recorded == e.recorded && e.cells.Some?
      && entry.rowItem.Valid() && entry.rowItem.Contents() == e.cells.value
      && entry.insertString == StmtText(InsertStmt(cfg, e.cells.value))
    }

    lemma ValidIsPending()
      requires Valid()
      ensures Pending()
    {
      hide StmtText;
      hide InsertStmt;
      hide Touches;
      hide Lives;
      hide NewestVersion;
      hide Ids;
      hide Winners;
      hide Size;
      forall id
        ensures id in deleteIds <==> Touches(cfg, given, id)
        ensures id in batchInserts <==> Lives(cfg, given, id)
        ensures id in batchInserts ==> exists i :: 0 <= i < |given| && NewestVersion(cfg, given, i, id) && IsEntryOf(batchInserts[id], given[i])
      {
        assert GathersAt(cfg, given, batch, id);
        if id in batchInserts {
          assert EntryOf(cfg, id, batchInserts[id], Winners(batch)[id]);
          var i :| 0 <= i < |given| && NewestVersion(cfg, given, i, id) && ComesFrom(Winners(batch)[id], given[i]);
          assert IsEntryOf(batchInserts[id], given[i]);
        }
      }
    }

    ghost function State(): Machine
      reads this, tx
    {
      Machine(batch, tx.State())
    }

    /** The mapper's work on the item, as the SetValue calls it makes. */
    method MapEntityToItem(cells: Cells, item: RowItem)
      requires item.Valid() && item.Contents() == []
      modifies item
      ensures item.Valid() && item.Contents() == cells
    {
      for i := 0 to |cells|
        invariant item.Valid() && item.Contents() == cells[..i]
      {
        item.SetValue(cells[i].0, cells[i].1);
      }
    }

    method Write(entity: Entity) returns (ok: bool, panicked: bool)
      requires Valid()
      modifies this, tx
      ensures Valid() && Pending()
      ensures given == if ok && batchSize == 0 then [] else old(given) + [entity]
      ensures panicked == Panics(cfg, entity) && (panicked ==> !ok && State() == old(State()))
      ensures (State(), ok) == Spec.Write(cfg, tx.sch, tx.env, old(State()), entity)
    {
      hide *;
      ok, panicked := Take(entity);
      ValidIsPending();
    }

    method Take(entity: Entity) returns (ok: bool, panicked: bool)
      requires Valid()
      modifies this, tx
      ensures Valid()
      ensures given == if ok && batchSize == 0 then [] else old(given) + [entity]
      ensures panicked == Panics(cfg, entity) && (panicked ==> !ok && State() == old(State()))
      ensures (State(), ok) == Spec.Write(cfg, tx.sch, tx.env, old(State()), entity)
    {
      hide Spec.Flush;
      hide MapOf;
      hide StmtText;
      hide InsertStmt;
      hide Ids;
      hide Winners;
      hide Size;
      hide Gathers;
      EmptyBatch();
      NothingGathered(cfg);
      GathersStep(cfg, given, batch, entity);
      var item := new RowItem();
      if entity.cells.None? {
        given := given + [entity];
        return false, false;
      }
      MapEntityToItem(entity.cells.value, item);
      item.deleted := entity.isDeleted;
      // the type assertion to string panics here, before anything is buffered
      if cfg.idColumn !in item.fields || !item.fields[cfg.idColumn].VStr? {
        given := given + [entity];
        return false, true;
      }
      ghost var op := Accept(cfg, entity).value;
      Buffer(item, entity.recorded, op, entity);
      IdsExact(batch);
      if batchSize >= cfg.flushThreshold {
        ok := FlushBuffers();
        if !ok {
          return false, false;
        }
        batchSize := 0;
        batchInserts := map[];
        deleteIds := [];
        batch, given := [], [];
      }
      return true, false;
    }

    /** The part of Write that changes the buffers only. */
    method Buffer(item: RowItem, recorded: nat, ghost op: Op, ghost entity: Entity)
      requires Valid() && item.Valid() && item.Contents() == op.cells && item.deleted == op.deleted && recorded == op.recorded
      requires cfg.idColumn in item.fields && item.fields[cfg.idColumn] == VStr(op.id)
      requires Gathers(cfg, given + [entity], batch + [op])
      modifies this
      ensures Valid() && batch == old(batch) + [op] && given == old(given) + [entity]
    {
      hide Gathers;
      hide Ids;
      hide Winners;
      hide Size;
      hide MapOf;
      hide StmtText;
      hide InsertStmt;
      hide EntryOf;
      var id := item.fields[cfg.idColumn].s;
      ghost var was, winners := batchInserts, Winners(batch);
      Grow(batch, op);
      NewEntry(cfg, item, op);
      StaleEntries(this);
      RememberId(id);
      batch, given := batch + [op], given + [entity];
      if item.deleted {
        batchSize := batchSize + 1;
      } else {
        RememberInsert(item, recorded, id);
      }
      forall k | k in batchInserts
        ensures k in Winners(batch) && EntryOf(cfg, k, batchInserts[k], Winners(batch)[k])
      {
        if k in was && batchInserts[k] == was[k] { assert EntryOf(cfg, k, was[k], winners[k]); }
      }
    }

    /** Keeps the newer of this write and the one that is already in the batch. */
    method RememberInsert(item: RowItem, recorded: nat, id: string)
      requires item.Valid() && cfg.idColumn in item.fields && item.fields[cfg.idColumn] == VStr(id)
      modifies this`batchInserts, this`batchSize
      ensures var stale := id in old(batchInserts) && recorded < old(batchInserts)[id].recorded;
              var entry := EntityInsert(id, recorded, item, StmtText(InsertStmt(cfg, item.Contents())));
              batchInserts == (if stale then old(batchInserts) else old(batchInserts)[id := entry]) &&
              batchSize == old(batchSize) + if stale then 0 else 1
    {
      hide MapOf;
      hide StmtText;
      hide InsertStmt;
      var doInsert := false;
      if id in batchInserts {
        if recorded >= batchInserts[id].recorded {
          batchInserts := batchInserts[id := EntityInsert(id, recorded, item, "")];
          doInsert := true;
        }
      } else {
        batchInserts := batchInserts[id := EntityInsert(id, recorded, item, "")];
        doInsert := true;
      }
      if doInsert {
        Insert(batchInserts[id].rowItem);
      }
    }

    /** Adds the id to the ids to delete, even if it is inserted after. */
    method RememberId(id: string)
      modifies this`deleteIds
      ensures deleteIds == if id in old(deleteIds) then old(deleteIds) else old(deleteIds) + [id]
    {
      var found := false;
      for i := 0 to |deleteIds|
        invariant found ==> id in deleteIds
        invariant !found ==> id !in deleteIds[..i]
      {
        if deleteIds[i] == id {
          found := true;
          break;
        }
      }
      if !found {
        deleteIds := deleteIds + [id];
      }
    }

    method Close() returns (ok: bool)
      requires Valid()
      modifies tx
      ensures Valid()
      ensures (State(), ok) == Spec.Close(cfg, tx.sch, tx.env, old(State()))
    {
      ok := FlushBuffers();
      if !ok {
        return false;
      }
      ok := tx.CommitTx();
    }

    /** Renders the item as one INSERT statement and stores it with the entry of its id. */
    method Insert(item: RowItem)
      requires item.Valid() && cfg.idColumn in item.fields && item.fields[cfg.idColumn].VStr?
      requires item.fields[cfg.idColumn].s in batchInserts
      modifies this`batchInserts, this`batchSize
      ensures batchSize == old(batchSize) + 1
      ensures var id := item.fields[cfg.idColumn].s;
              batchInserts == old(batchInserts)[id := old(batchInserts)[id].(insertString := StmtText(InsertStmt(cfg, item.Contents())))]
    {
      hide MapOf;
      MapHasNames(item.Contents(), cfg.idColumn);
      var columns := ColumnText(item);
      var values := ValueText(item);
      var sb := "INSERT INTO " + cfg.table + " (" + columns + ") VALUES (" + values + ")";
      var id := item.fields[cfg.idColumn].s;
      batchInserts := batchInserts[id := batchInserts[id].(insertString := sb)];
      batchSize := batchSize + 1;
    }

    /** The loop over the columns, and the since column. */
    method ColumnText(item: RowItem) returns (sb: string)
      requires item.Valid() && item.columns != []
      ensures sb == ListText(InsertStmt(cfg, item.Contents()).cols)
    {
      hide ListText;
      ghost var names := NameLits(item.Contents());
      sb := "";
      EmptyList();
      for i := 0 to |item.columns|
        invariant sb == ListText(names[..i])
      {
        if i > 0 {
          sb := sb + ", ";
        }
        sb := sb + Lower(item.columns[i]);
        ListGrows(names, i);
      }
      assert names[..|names|] == names == names + [];
      if cfg.sinceColumn != "" {
        sb := sb + ", ";
        sb := sb + Lower(cfg.sinceColumn);
        ListSnoc(names, LName(Lower(cfg.sinceColumn)));
      }
    }

    /** The loop over the values, and the clock for the since column. */
    method ValueText(item: RowItem) returns (sb: string)
      requires item.Valid() && item.columns != []
      ensures sb == ListText(InsertStmt(cfg, item.Contents()).vals)
    {
      hide ListText;
      hide LitText;
      hide LitFor;
      ghost var lits := CellLits(cfg.mappings, item.Contents());
      sb := "";
      EmptyList();
      for i := 0 to |item.values|
        invariant sb == ListText(lits[..i])
      {
        var colName := item.columns[i];
        if i > 0 {
          sb := sb + ", ";
        }
        sb := sb + SqlVal(cfg.mappings, item.values[i], colName);
        ListGrows(lits, i);
      }
      assert lits[..|lits|] == lits == lits + [];
      var sincePrecision := if cfg.sincePrecision != "" then cfg.sincePrecision else "6";
      if cfg.sinceColumn != "" {
        sb := sb + ", NOW(" + sincePrecision + ")";
        NowSnoc(lits, sincePrecision);
      }
    }

    /** Deletes first, then the inserts in a block of their own; nothing when nothing is pending. */
    method FlushBuffers() returns (ok: bool)
      requires Valid()
      modifies tx
      ensures (tx.State(), ok) == Spec.Flush(cfg, tx.sch, tx.env, batch, old(tx.State()))
    {
      hide Spec.Flush;
      hide FlushDeletes;
      hide FlushInserts;
      hide Ids;
      hide Winners;
      hide Size;
      IdsExact(batch);
      FlushCases(cfg, tx.sch, tx.env, batch, tx.State());
      assert Texts();
      hide EntryOf;
      if batchSize == 0 {
        return true;
      }
      assert batch[0].id in Ids(batch);
      if |deleteIds| > 0 {
        ok := SendDeletes();
        if !ok {
          return false;
        }
      }
      if |batchInserts| == 0 {
        assert Winners(batch) == map[];
        return true;
      }
      ok := SendInserts();
    }

    /** The delete block, with a rollback when it fails. */
    method SendDeletes() returns (ok: bool)
      requires deleteIds == Ids(batch)
      modifies tx
      ensures (tx.State(), ok) == FlushDeletes(cfg, tx.sch, tx.env, batch, old(tx.State()))
    {
      hide Exec;
      hide Rollback;
      hide BlockText;
      hide DeleteStmt;
      hide Ids;
      var text := DeleteText();
      var deltxn := "BEGIN;\n\n" + text + "\nCOMMIT;";
      DeleteBlock(text, DeleteStmt(cfg, Ids(batch)));
      ok := tx.ExecContext(deltxn);
      if !ok {
        var _ := tx.RollbackTx();
      }
    }

    /** The insert block, with a rollback when it fails. */
    method SendInserts() returns (ok: bool)
      requires tx.env.Valid() && Texts()
      modifies tx
      ensures (tx.State(), ok) == FlushInserts(cfg, tx.sch, tx.env, batch, old(tx.State()))
    {
      hide Exec;
      hide Rollback;
      hide BlockText;
      hide InsertStmts;
      hide Winners;
      ghost var order := tx.env.order(batchInserts.Keys, tx.tick);
      assert IsListing(order, batchInserts.Keys);
      var text := InsertText();
      var stmt := "BEGIN;\n\n" + text + ";\nCOMMIT;";
      InsertBlock(text, InsertStmts(cfg, Winners(batch), order));
      ok := tx.ExecContext(stmt);
      if !ok {
        var _ := tx.RollbackTx();
      }
    }

    /** The loop over the ids to delete. */
    method DeleteText() returns (sb: string)
      requires deleteIds == Ids(batch)
      ensures sb == StmtText(DeleteStmt(cfg, Ids(batch))) + ";"
    {
      hide ListText;
      hide StmtText;
      hide DeleteStmt;
      hide Ids;
      hide LitFor;
      hide LitText;
      EmptyList();
      DeleteTextParts(cfg, deleteIds);
      ghost var lits := IdLits(cfg, deleteIds);
      sb := "DELETE FROM " + cfg.table + " WHERE " + cfg.idColumn + " IN (";
      ghost var start := sb;
      for i := 0 to |deleteIds|
        invariant sb == start + ListText(lits[..i])
      {
        if i > 0 {
          sb := sb + ", ";
        }
        sb := sb + SqlVal(cfg.mappings, VStr(deleteIds[i]), "id");
        ListGrows(lits, i);
      }
      assert lits[..|lits|] == lits;
      sb := sb + ");";
    }

    /** The loop that ranges over the map of pending inserts. */
    method InsertText() returns (sb: string)
      requires tx.env.Valid() && Texts()
      ensures sb == Join(StmtTexts(InsertStmts(cfg, Winners(batch), tx.env.order(batchInserts.Keys, tx.tick))), ";\n")
    {
      hide InsertStmt;
      hide StmtText;
      hide Winners;
      hide Join;
      EmptyJoin(";\n");
      var order := tx.env.order(batchInserts.Keys, tx.tick);
      assert IsListing(order, batchInserts.Keys);
      ghost var parts := StmtTexts(InsertStmts(cfg, Winners(batch), order));
      sb := "";
      for i := 0 to |order|
        invariant sb == Join(parts[..i], ";\n")
        invariant i > 0 ==> |sb| > 0
      {
        assert order[i] in order;
        var insert := batchInserts[order[i]];
        if |sb| > 0 {
          sb := sb + ";\n";
        }
        sb := sb + insert.insertString;
        assert parts[i] == insert.insertString;
        JoinGrows(parts, i, ";\n");
        StmtTextIsNotEmpty(InsertStmt(cfg, Winners(batch)[order[i]].cells));
      }
      assert parts[..|order|] == parts;
    }
  }

  lemma NewEntry(cfg: Config, item: RowItem, op: Op)
    requires item.Valid() && item.Contents() == op.cells
    ensures EntryOf(cfg, op.id, EntityInsert(op.id, op.recorded, item, StmtText(InsertStmt(cfg, item.Contents()))), op)
  {
    hide StmtText;
    hide InsertStmt;
  }

  /** A pending entry has the recorded time of its write. */
  lemma StaleEntries(w: MysqlWriter)
    requires w.Valid()
    ensures forall k :: k in w.batchInserts ==> w.batchInserts[k].recorded == Winners(w.batch)[k].recorded
  {
    hide StmtText;
    hide InsertStmt;
    hide Winners;
    hide Ids;
    hide Size;
  }

  lemma EmptyBatch()
    ensures Ids([]) == [] && Winners([]) == map[] && Size([]) == 0
  {
  }

  /** The text of a DELETE around its list of ids. */
  lemma DeleteTextParts(cfg: Config, ids: seq<string>)
    ensures StmtText(DeleteStmt(cfg, ids)) + ";" ==
            "DELETE FROM " + cfg.table + " WHERE " + cfg.idColumn + " IN (" + ListText(IdLits(cfg, ids)) + ");"
  {
    hide ListText;
    hide IdLits;
    assert ")" + ";" == ");";
  }

  lemma EmptyList()
    ensures ListText([]) == ""
  {
  }

  lemma {:induction false} EmptyJoin(sep: string)
    ensures Join([], sep) == ""
  {
  }

  lemma StmtTextIsNotEmpty(s: Stmt)
    ensures |StmtText(s)| > 0
  {
  }

  lemma {:induction false} JoinGrows(parts: seq<string>, i: nat, sep: string)
    requires i < |parts|
    ensures Join(parts[..i + 1], sep) == Join(parts[..i], sep) + (if i > 0 then sep else "") + parts[i]
  {
    assert parts[..i + 1] == parts[..i] + [parts[i]];
    if i > 0 { JoinSnoc(parts[..i], parts[i], sep); }
  }

  lemma DeleteBlock(text: string, stmt: Stmt)
    requires text == StmtText(stmt) + ";"
    ensures "BEGIN;\n\n" + text + "\nCOMMIT;" == BlockText([stmt])
  {
    hide StmtText;
    assert StmtTexts([stmt]) == [StmtText(stmt)];
  }

  lemma InsertBlock(text: string, stmts: seq<Stmt>)
    requires text == Join(StmtTexts(stmts), ";\n")
    ensures "BEGIN;\n\n" + text + ";\nCOMMIT;" == BlockText(stmts)
  {
  }

  lemma ListSnoc(lits: seq<Lit>, l: Lit)
    requires lits != []
    ensures ListText(lits + [l]) == ListText(lits) + ", " + LitText(l)
  {
    assert LitTexts(lits + [l]) == LitTexts(lits) + [LitText(l)];
    JoinSnoc(LitTexts(lits), LitText(l), ", ");
  }

  lemma NowSnoc(lits: seq<Lit>, precision: string)
    requires lits != []
    ensures ListText(lits + [LNow(precision)]) == ListText(lits) + ", NOW(" + precision + ")"
  {
    ListSnoc(lits, LNow(precision));
    hide ListText;
    assert ", " + ("NOW(" + precision + ")") == ", NOW(" + precision + ")";
  }

  /** One round of a loop that separates its items by commas. */
  lemma ListGrows(lits: seq<Lit>, i: nat)
    requires i < |lits|
    ensures ListText(lits[..i + 1]) == ListText(lits[..i]) + (if i > 0 then ", " else "") + LitText(lits[i])
  {
    assert lits[..i + 1] == lits[..i] + [lits[i]];
    if i > 0 {
      ListSnoc(lits[..i], lits[i]);
    } else {
      assert LitTexts(lits[..1]) == [LitText(lits[0])];
    }
  }
}
