/**
 * A consumer that chains incremental reads while writers commit in between.
 * Every step is atomic; the two queries of a read are two steps.
 */
module Replica {
  import opened Basics
  import opened Batches
  import opened Database
  import opened Timestamps
  import opened Select
  import opened Reader
  import opened BaseQueries
  import opened ReadMeaning
  import opened WriterSpec
  import Lexer
  import opened FlushMeaning
  import opened FlushEffect

  datatype Setup = Setup(def: Definition, sch: Schema)

  datatype Asked = NotAsked | AskedFor(max: Option<Time>)

  /**
   * The table, the latest maximum ever read, the reader between or within reads, what the
   * consumer holds, all rows delivered so far, and those delivered while the maximum was NULL.
   */
  datatype World = World(
    table: Table,
    high: nat,
    token: string,
    mark: Option<Time>,
    asked: Asked,
    replica: Table,
    log: seq<Row>,
    early: set<Row>)

  datatype Event =
    | Commit(after: Table)
    | Block(cfg: Config, env: Env, batch: seq<Op>, c: Conn, inserts: bool)
    | AskMax(listing: seq<Row>)
    | AskData(listing: seq<Row>)

  // ---------------------------------------------------------------- steps

  function KeyOf(sch: Schema, row: Row): string { match CellIn(row, sch.key) case Text(k) => k case _ => "" }

  /** What the consumer is given for a row, and the id it finds in it. */
  function Given(s: Setup, row: Row): Row { Project(Shape(s.def), row) }

  function GivenKey(s: Setup, row: Row): string { KeyOf(s.sch, Given(s, row)) }

  /** The consumer stores every delivered row under its id; a later one replaces an earlier one. */
  function Absorb(s: Setup, replica: Table, rows: seq<Row>): Table {
    if rows == [] then replica
    else Absorb(s, replica, rows[..|rows| - 1])[GivenKey(s, rows[|rows| - 1]) := Given(s, rows[|rows| - 1])]
  }

  /** The whole table is read, and the id is among the columns. */
  ghost predicate Follows(s: Setup) {
    WholeTable(s.def, s.sch.name) && HasKey(s)
  }

  predicate HasKey(s: Setup) {
    Shape(s.def) == ["*"] || exists i :: 0 <= i < |Shape(s.def)| && Lower(Shape(s.def)[i]) == s.sch.key
  }

  lemma FollowsParts(s: Setup)
    requires Follows(s)
    ensures WholeTable(s.def, s.sch.name) && HasKey(s)
  {
  }

  lemma KeyIsGiven(s: Setup, row: Row)
    requires HasKey(s)
    ensures GivenKey(s, row) == KeyOf(s.sch, row)
  {
    hide Lower;
    if Shape(s.def) != ["*"] {
      var i :| 0 <= i < |Shape(s.def)| && Lower(Shape(s.def)[i]) == s.sch.key;
      assert s.sch.key in Given(s, row);
    }
  }

  ghost predicate StampedTable(def: Definition, t: Table) {
    forall k :: k in t ==> StampOf(def, t[k]).Some? && IsStored(StampOf(def, t[k]).value)
  }

  /** What a block of a writer leaves for others to see. */
  function BlockAfter(sch: Schema, e: Event): Table
    requires e.Block? && e.env.Valid()
  {
    if e.inserts then FlushInserts(e.cfg, sch, e.env, e.batch, e.c).0.committed
    else FlushDeletes(e.cfg, sch, e.env, e.batch, e.c).0.committed
  }

  /** Rows that a commit changes carry stamps later than any maximum read so far. */
  ghost predicate FreshRows(def: Definition, high: nat, before: Table, after: Table) {
    forall k :: k in after ==> (k in before && after[k] == before[k]) || RankOf(def, after[k]) > high
  }

  ghost predicate Legal(s: Setup, w: World, e: Event) {
    match e
    case Commit(after) => Keyed(s.sch, after) && StampedTable(s.def, after) && FreshRows(s.def, w.high, w.table, after)
    case Block(cfg, env, batch, c, inserts) =>
      && env.Valid() && Fits(cfg, s.sch) && IdsUnconverted(cfg) && CleanBatch(cfg, batch)
      && FlushEffect.Idle(s.sch, c) && c.committed == w.table
      && cfg.sinceColumn != "" && Lower(cfg.sinceColumn) == Lower(s.def.sinceColumn)
      && (if inserts then Winners(batch) != map[] else batch != [])
      && forall n: nat :: n >= c.tick ==> var t := CutTo(env.time(n), Digits(cfg)); IsStored(t) && Rank(t) > w.high
    case AskMax(l) => IsListing(l, w.table.Values)
    case AskData(l) => w.asked.AskedFor? && IsListing(l, w.table.Values)
  }

  /** The first query of a read. */
  function MaxStep(s: Setup, w: World, l: seq<Row>): World {
    var max := MaxStamp(s.def, l);
    w.(asked := AskedFor(max), high := Batches.Max(w.high, RankOfMark(max)))
  }

  /** The world after a data query that selected these rows. */
  function Delivered(s: Setup, w: World, rows: seq<Row>): World
    requires w.asked.AskedFor?
  {
    World(w.table, w.high, TokenOf(w.asked.max), Some(match w.asked.max case Some(t) => t case None => ZERO), NotAsked,
          Absorb(s, w.replica, rows), w.log + rows, if w.asked.max.None? then w.early + (set r | r in rows) else w.early)
  }

  /** The second query: deliver the rows, keep the maximum as token. */
  function DataStep(s: Setup, w: World, l: seq<Row>): World {
    if w.asked.NotAsked? then w
    else
      match ReadRows(s.def, s.sch.name, w.token, w.asked.max, 0, l)
      case None => w
      case Some(rows) => Delivered(s, w, rows)
  }

  function Step(s: Setup, w: World, e: Event): World
    requires e.Block? ==> e.env.Valid()
  {
    match e
    case Commit(after) => w.(table := after)
    case Block(_, _, _, _, _) => w.(table := BlockAfter(s.sch, e))
    case AskMax(l) => MaxStep(s, w, l)
    case AskData(l) => DataStep(s, w, l)
  }

  ghost predicate LegalRun(s: Setup, w: World, events: seq<Event>)
    decreases |events|
  {
    events == [] || (Legal(s, w, events[0]) && LegalRun(s, Step(s, w, events[0]), events[1..]))
  }

  ghost function Run(s: Setup, w: World, events: seq<Event>): World
    requires LegalRun(s, w, events)
    decreases |events|
  {
    if events == [] then w else Run(s, Step(s, w, events[0]), events[1..])
  }

  /** A consumer that has read nothing, beside any table of stamped rows. */
  ghost predicate Start(s: Setup, w: World) {
    && Keyed(s.sch, w.table) && StampedTable(s.def, w.table)
    && w == World(w.table, Rank(ZERO), "", None, NotAsked, map[], [], {})
  }

  // ---------------------------------------------------------------- the invariant

  /** Rows that may have been seen by the maximum in force are not later than this. */
  function Bound(w: World): nat { match w.asked case NotAsked => RankOfMark(w.mark) case AskedFor(max) => RankOfMark(max) }

  /** The consumer holds the current row of k, and it was delivered. */
  predicate InSync(s: Setup, w: World, k: string)
    requires k in w.table
  {
    k in w.replica && w.replica[k] == Given(s, w.table[k]) && w.table[k] in w.log
  }

  /** Tables are well formed, the token stands for the mark, nothing in force is later than high. */
  ghost predicate WellFormed(s: Setup, w: World) {
    && Keyed(s.sch, w.table) && StampedTable(s.def, w.table)
    && Denotes(w.token, w.mark) && Rank(ZERO) <= w.high && RankOfMark(w.mark) <= w.high
    && (w.asked.AskedFor? && w.asked.max.Some? ==> IsStored(w.asked.max.value) && Rank(w.asked.max.value) <= w.high)
  }

  /** No row lies between the maximum in force and the latest maximum. */
  ghost predicate Bounded(s: Setup, w: World) {
    forall k :: k in w.table && RankOf(s.def, w.table[k]) <= w.high ==> RankOf(s.def, w.table[k]) <= Bound(w)
  }

  /** Rows up to the mark are delivered and current at the consumer. */
  ghost predicate Synced(s: Setup, w: World) {
    forall k :: k in w.table && RankOf(s.def, w.table[k]) <= RankOfMark(w.mark) ==> InSync(s, w, k)
  }

  /** Delivered rows are not later than any maximum, and those still in the table not later than the mark, unless early. */
  ghost predicate Logged(s: Setup, w: World) {
    && (forall r :: r in w.log ==> RankOf(s.def, r) <= w.high || r in w.early)
    && (forall k :: k in w.table && w.table[k] in w.log ==> RankOf(s.def, w.table[k]) <= RankOfMark(w.mark) || w.table[k] in w.early)
  }

  ghost predicate OnceOnly(w: World) {
    forall i, j :: 0 <= i < j < |w.log| && w.log[i] == w.log[j] ==> w.log[i] in w.early
  }

  ghost predicate Inv(s: Setup, w: World) {
    WellFormed(s, w) && Bounded(s, w) && Synced(s, w) && Logged(s, w) && OnceOnly(w)
  }

  lemma {:induction false} CommitKeepsInv(s: Setup, w: World, after: Table)
    requires Inv(s, w) && Legal(s, w, Commit(after))
    ensures Inv(s, Step(s, w, Commit(after)))
  {
    assert Step(s, w, Commit(after)) == w.(table := after);
    hide RankOf;
    hide Rank;
    hide Keyed;
    hide StampedTable;
    hide Denotes;
    hide IsStored;
    hide Bounded;
    hide Synced;
    hide Logged;
    hide FreshRows;
    hide Step;
    RowsReplaced(s, w, after);
  }

  /** Rows that are fresh are in no window and in no log that an invariant speaks of. */
  lemma RowsReplaced(s: Setup, w: World, after: Table)
    requires Bounded(s, w) && Synced(s, w) && Logged(s, w) && RankOfMark(w.mark) <= w.high && FreshRows(s.def, w.high, w.table, after)
    ensures var w' := w.(table := after); Bounded(s, w') && Synced(s, w') && Logged(s, w')
  {
    hide RankOf;
    hide RankOfMark;
    hide Given;
    var w' := w.(table := after);
    forall k | k in after && RankOf(s.def, after[k]) <= w.high ensures k in w.table && after[k] == w.table[k] {}
    forall k | k in after && RankOf(s.def, after[k]) <= RankOfMark(w.mark) ensures InSync(s, w', k) {
      assert InSync(s, w, k);
    }
  }

  lemma ListingStamped(s: Setup, w: World, l: seq<Row>)
    requires StampedTable(s.def, w.table) && IsListing(l, w.table.Values)
    ensures Stamps(s.def, l) && (l == [] <==> w.table == map[])
    ensures forall k :: k in w.table ==> w.table[k] in l
  {
    forall k | k in w.table ensures w.table[k] in l { assert w.table[k] in w.table.Values; }
    forall r | r in l ensures exists k :: k in w.table && w.table[k] == r { assert r in w.table.Values; }
    if l != [] { assert l[0] in l; }
    if w.table != map[] {
      var k :| k in w.table;
      assert w.table[k] in l;
    }
  }

  lemma {:induction false} AskMaxKeepsInv(s: Setup, w: World, l: seq<Row>)
    requires Inv(s, w) && Legal(s, w, AskMax(l))
    ensures Inv(s, MaxStep(s, w, l))
    ensures var w' := MaxStep(s, w, l); forall k :: k in w.table ==> RankOf(s.def, w.table[k]) <= Bound(w')
    ensures MaxStamp(s.def, l).None? <==> w.table == map[]
  {
    MaxOfTable(s, w, l);
    hide RankOf;
    hide Rank;
    hide MaxStamp;
    hide StampedTable;
    hide Keyed;
    hide IsListing;
    hide IsStored;
    hide Denotes;
    hide Bounded;
    hide Synced;
    hide Logged;
    hide OnceOnly;
    hide InSync;
    AskedStill(s, w, MaxStep(s, w, l));
  }

  /** The maximum that the first query finds in a listing of the table. */
  lemma {:induction false} MaxOfTable(s: Setup, w: World, l: seq<Row>)
    requires StampedTable(s.def, w.table) && IsListing(l, w.table.Values)
    ensures var max := MaxStamp(s.def, l);
            (max.None? <==> w.table == map[]) && (max.Some? ==> IsStored(max.value)) &&
            forall k :: k in w.table ==> RankOf(s.def, w.table[k]) <= RankOfMark(max)
  {
    ListingStamped(s, w, l);
    MaxStampIsMax(s.def, l);
    assert forall k :: k in w.table ==> w.table[k] in l;
    hide *;
    MarkOfSome(MaxStamp(s.def, l));
  }

  lemma MarkOfSome(max: Option<Time>)
    ensures max.Some? ==> RankOfMark(max) == Rank(max.value)
  {
  }

  /** Asking for a maximum that covers the table disturbs no delivery. */
  lemma AskedStill(s: Setup, w: World, w': World)
    requires Bounded(s, w) && Synced(s, w) && Logged(s, w) && OnceOnly(w)
    requires w'.asked.AskedFor? && w' == w.(asked := w'.asked, high := w'.high) && w.high <= w'.high
    requires forall k :: k in w.table ==> RankOf(s.def, w.table[k]) <= Bound(w')
    ensures Bounded(s, w') && Synced(s, w') && Logged(s, w') && OnceOnly(w')
  {
    hide RankOf;
    hide RankOfMark;
    hide Bound;
    forall k | k in w'.table && RankOf(s.def, w'.table[k]) <= RankOfMark(w'.mark) ensures InSync(s, w', k) {
      assert InSync(s, w, k);
    }
  }

  lemma {:induction false} AbsorbOther(s: Setup, replica: Table, rows: seq<Row>, k: string)
    requires forall i :: 0 <= i < |rows| ==> GivenKey(s, rows[i]) != k
    ensures var r := Absorb(s, replica, rows); (k in r <==> k in replica) && (k in r ==> r[k] == replica[k])
  {
    hide GivenKey;
    hide Given;
    if rows != [] { AbsorbOther(s, replica, rows[..|rows| - 1], k); }
  }

  /** The last delivered row of an id decides what is held. */
  lemma {:induction false} AbsorbRow(s: Setup, replica: Table, rows: seq<Row>, k: string, i: nat)
    requires i < |rows| && GivenKey(s, rows[i]) == k
    requires forall j :: i < j < |rows| && GivenKey(s, rows[j]) == k ==> rows[j] == rows[i]
    ensures var r := Absorb(s, replica, rows); k in r && r[k] == Given(s, rows[i])
  {
    hide GivenKey;
    hide Given;
    if GivenKey(s, rows[|rows| - 1]) != k { AbsorbRow(s, replica, rows[..|rows| - 1], k, i); }
  }

  /** The rows a data query selects: those of the table in the window, each once. */
  ghost predicate Picks(s: Setup, w: World, rows: seq<Row>)
    requires w.asked.AskedFor?
  {
    && (forall row :: row in rows ==> KeyOf(s.sch, row) in w.table && w.table[KeyOf(s.sch, row)] == row)
    && (forall k :: k in w.table ==> (w.table[k] in rows <==> InWindow(s.def, w.mark, w.asked.max, w.table[k])))
    && Distinct(rows)
  }

  lemma DataPicks(s: Setup, w: World, l: seq<Row>)
    requires Follows(s) && WellFormed(s, w) && Legal(s, w, AskData(l))
    ensures var r := ReadRows(s.def, s.sch.name, w.token, w.asked.max, 0, l); r.Some? && Picks(s, w, r.value)
  {
    ListingStamped(s, w, l);
    ListingDistinct(l, w.table);
    assert Keyed(s.sch, w.table) && Denotes(w.token, w.mark) && w.asked.AskedFor? && (w.asked.max.Some? ==> IsStored(w.asked.max.value));
    assert IsListing(l, w.table.Values);
    hide *;
    WholeTableRead(s.def, s.sch.name, w.token, w.mark, w.asked.max, l);
    PicksFrom(s, w, l, ReadRows(s.def, s.sch.name, w.token, w.asked.max, 0, l).value);
  }

  lemma ListingDistinct(l: seq<Row>, t: Table)
    requires IsListing(l, t.Values)
    ensures Distinct(l)
  {
  }

  lemma PicksFrom(s: Setup, w: World, l: seq<Row>, rows: seq<Row>)
    requires Keyed(s.sch, w.table) && w.asked.AskedFor? && IsListing(l, w.table.Values)
    requires forall row :: row in rows <==> row in l && InWindow(s.def, w.mark, w.asked.max, row)
    requires Distinct(rows)
    ensures Picks(s, w, rows)
  {
    hide InWindow;
    forall row | row in rows ensures KeyOf(s.sch, row) in w.table && w.table[KeyOf(s.sch, row)] == row {
      assert row in w.table.Values;
    }
    forall k | k in w.table ensures w.table[k] in l {
      assert w.table[k] in w.table.Values;
    }
  }

  /** What absorbing the picked rows does, id by id. */
  lemma {:induction false} AbsorbPicks(s: Setup, w: World, rows: seq<Row>, k: string)
    requires HasKey(s) && w.asked.AskedFor? && Keyed(s.sch, w.table) && Picks(s, w, rows) && k in w.table
    ensures var r := Absorb(s, w.replica, rows);
            if InWindow(s.def, w.mark, w.asked.max, w.table[k]) then k in r && r[k] == Given(s, w.table[k])
            else (k in r <==> k in w.replica) && (k in r ==> r[k] == w.replica[k])
  {
    hide InWindow;
    hide Given;
    hide Absorb;
    assert KeyOf(s.sch, w.table[k]) == k;
    hide KeyOf;
    hide GivenKey;
    hide HasKey;
    forall j | 0 <= j < |rows| ensures GivenKey(s, rows[j]) == k <==> rows[j] == w.table[k] {
      KeyIsGiven(s, rows[j]);
      assert rows[j] in rows;
    }
    if i :| 0 <= i < |rows| && rows[i] == w.table[k] {
      AbsorbRow(s, w.replica, rows, k, i);
    } else {
      AbsorbOther(s, w.replica, rows, k);
    }
  }

  lemma DataStepShape(s: Setup, w: World, l: seq<Row>)
    requires w.asked.AskedFor? && ReadRows(s.def, s.sch.name, w.token, w.asked.max, 0, l).Some?
    ensures var rows := ReadRows(s.def, s.sch.name, w.token, w.asked.max, 0, l).value;
            DataStep(s, w, l) == Delivered(s, w, rows)
  {
    hide ReadRows;
  }

  /** After the delivery every row that is not later than the maximum is in sync, and with no maximum every row is. */
  lemma DeliveredInSync(s: Setup, w: World, rows: seq<Row>, k: string)
    requires HasKey(s) && Inv(s, w) && w.asked.AskedFor? && Picks(s, w, rows) && k in w.table
    requires w.asked.max.None? || RankOf(s.def, w.table[k]) <= RankOfMark(w.asked.max)
    ensures InSync(s, Delivered(s, w, rows), k)
  {
    hide Absorb;
    hide Given;
    hide RankOf;
    hide Rank;
    hide TokenOf;
    AbsorbPicks(s, w, rows, k);
    if !InWindow(s.def, w.mark, w.asked.max, w.table[k]) {
      assert InSync(s, w, k);
    }
  }

  lemma DeliveredSynced(s: Setup, w: World, rows: seq<Row>)
    requires HasKey(s) && Inv(s, w) && w.asked.AskedFor? && Picks(s, w, rows)
    ensures Synced(s, Delivered(s, w, rows))
  {
    var w' := Delivered(s, w, rows);
    StampedLater(s.def, w.table);
    hide Inv;
    hide InSync;
    hide RankOf;
    hide Rank;
    hide Picks;
    forall k | k in w'.table && RankOf(s.def, w'.table[k]) <= RankOfMark(w'.mark) ensures InSync(s, w', k) {
      DeliveredInSync(s, w, rows, k);
    }
  }

  lemma DeliveredBounded(s: Setup, w: World, rows: seq<Row>)
    requires Bounded(s, w) && w.asked.AskedFor?
    ensures Bounded(s, Delivered(s, w, rows))
  {
    hide RankOf;
    hide Rank;
    hide Absorb;
    hide TokenOf;
    hide Bounded;
    BoundGrows(s, w, Delivered(s, w, rows));
  }

  lemma BoundGrows(s: Setup, w: World, w': World)
    requires Bounded(s, w) && w'.table == w.table && w'.high == w.high && Bound(w) <= Bound(w')
    ensures Bounded(s, w')
  {
    hide RankOf;
    hide Bound;
  }

  /** Stored stamps are later than the zero time. */
  lemma StampedLater(def: Definition, t: Table)
    requires StampedTable(def, t)
    ensures forall k :: k in t ==> RankOf(def, t[k]) > Rank(ZERO)
  {
    hide Rank;
    hide StampOf;
  }

  /** A picked row is not later than the maximum, unless the maximum is NULL. */
  lemma PickedRow(s: Setup, w: World, rows: seq<Row>, row: Row)
    requires w.asked.AskedFor? && Picks(s, w, rows) && row in rows
    ensures w.asked.max.None? || RankOf(s.def, row) <= RankOfMark(w.asked.max)
  {
    hide RankOf;
    hide KeyOf;
    hide RankOfMark;
    assert w.table[KeyOf(s.sch, row)] == row;
  }

  lemma DeliveredNotLater(s: Setup, w: World, rows: seq<Row>, r: Row)
    requires WellFormed(s, w) && Logged(s, w) && w.asked.AskedFor? && Picks(s, w, rows)
    requires r in w.log + rows
    ensures var w' := Delivered(s, w, rows); RankOf(s.def, r) <= w.high || r in w'.early
  {
    StampedLater(s.def, w.table);
    hide RankOf;
    hide Absorb;
    hide TokenOf;
    hide KeyOf;
    hide StampedTable;
    hide Picks;
    hide Keyed;
    hide IsStored;
    hide Denotes;
    if r in rows { PickedRow(s, w, rows, r); } else { assert r in w.log; }
  }

  lemma DeliveredInForce(s: Setup, w: World, rows: seq<Row>, r: Row)
    requires WellFormed(s, w) && Bounded(s, w) && Logged(s, w) && w.asked.AskedFor? && Picks(s, w, rows)
    requires r in w.log + rows && r in w.table.Values
    ensures var w' := Delivered(s, w, rows); RankOf(s.def, r) <= RankOfMark(w'.mark) || r in w'.early
  {
    StampedLater(s.def, w.table);
    hide RankOf;
    hide Absorb;
    hide TokenOf;
    hide KeyOf;
    hide StampedTable;
    hide Picks;
    hide Keyed;
    hide IsStored;
    hide Denotes;
    if r in rows { PickedRow(s, w, rows, r); } else { assert r in w.log; }
  }

  lemma DeliveredLogged(s: Setup, w: World, rows: seq<Row>)
    requires WellFormed(s, w) && Bounded(s, w) && Logged(s, w) && w.asked.AskedFor? && Picks(s, w, rows)
    ensures Logged(s, Delivered(s, w, rows))
  {
    var w' := Delivered(s, w, rows);
    assert w'.table == w.table && w'.high == w.high && w'.log == w.log + rows;
    hide Delivered;
    hide RankOf;
    hide Picks;
    hide WellFormed;
    hide Bounded;
    forall r | r in w'.log ensures RankOf(s.def, r) <= w.high || r in w'.early { DeliveredNotLater(s, w, rows, r); }
    forall k | k in w.table && w.table[k] in w'.log
      ensures RankOf(s.def, w.table[k]) <= RankOfMark(w'.mark) || w.table[k] in w'.early
    {
      DeliveredInForce(s, w, rows, w.table[k]);
    }
  }

  /** The token of a maximum stands for it, and without one for the zero time. */
  lemma MarkDenoted(max: Option<Time>)
    requires max.Some? ==> IsStored(max.value)
    ensures Denotes(TokenOf(max), Some(match max case Some(t) => t case None => ZERO))
  {
    assert TokenOf(None) == TokenOf(Some(ZERO));
    hide TokenOf;
    hide IsStored;
  }

  lemma DeliveredWellFormed(s: Setup, w: World, rows: seq<Row>)
    requires WellFormed(s, w) && w.asked.AskedFor?
    ensures WellFormed(s, Delivered(s, w, rows))
  {
    hide Keyed;
    hide StampedTable;
    hide Rank;
    hide IsStored;
    hide TokenOf;
    hide Absorb;
    hide Denotes;
    MarkDenoted(w.asked.max);
  }

  lemma InvParts(s: Setup, w: World)
    ensures Inv(s, w) <==> WellFormed(s, w) && Bounded(s, w) && Synced(s, w) && Logged(s, w) && OnceOnly(w)
  {
  }

  lemma AskDataLegal(s: Setup, w: World, l: seq<Row>)
    requires Legal(s, w, AskData(l))
    ensures w.asked.AskedFor?
  {
    hide IsListing;
  }

  lemma {:induction false} AskDataKeepsInv(s: Setup, w: World, l: seq<Row>)
    requires Follows(s) && Inv(s, w) && Legal(s, w, AskData(l))
    ensures Inv(s, DataStep(s, w, l))
  {
    hide *;
    FollowsParts(s);
    AskDataLegal(s, w, l);
    InvParts(s, w);
    DataPicks(s, w, l);
    var rows := ReadRows(s.def, s.sch.name, w.token, w.asked.max, 0, l).value;
    DataStepShape(s, w, l);
    DeliveredWellFormed(s, w, rows);
    DeliveredSynced(s, w, rows);
    DeliveredBounded(s, w, rows);
    DeliveredLogged(s, w, rows);
    DeliveredOnce(s, w, rows);
    InvParts(s, Delivered(s, w, rows));
  }

  lemma DeliveredOnce(s: Setup, w: World, rows: seq<Row>)
    requires Inv(s, w) && w.asked.AskedFor? && Picks(s, w, rows)
    ensures OnceOnly(Delivered(s, w, rows))
  {
    hide RankOf;
    hide Rank;
    hide Absorb;
    hide TokenOf;
    hide Synced;
    hide StampedTable;
    var w' := Delivered(s, w, rows);
    forall r | r in rows && r in w.log ensures r in w'.early {
      assert w.table[KeyOf(s.sch, r)] == r;
    }
    LogGrows(s, w, w', rows);
  }

  /** Only rows that were delivered early are delivered again. */
  lemma LogGrows(s: Setup, w: World, w': World, rows: seq<Row>)
    requires w'.log == w.log + rows && w.early <= w'.early
    requires forall i, j :: 0 <= i < j < |w.log| && w.log[i] == w.log[j] ==> w.log[i] in w.early
    requires forall i, j :: 0 <= i < j < |rows| ==> rows[i] != rows[j]
    requires forall r :: r in rows && r in w.log ==> r in w'.early
    ensures forall i, j :: 0 <= i < j < |w'.log| && w'.log[i] == w'.log[j] ==> w'.log[i] in w'.early
  {
    forall i, j | 0 <= i < j < |w'.log| && w'.log[i] == w'.log[j] ensures w'.log[i] in w'.early {
      if i < |w.log| <= j {
        assert w.log[i] in w.log && rows[j - |w.log|] in rows;
      }
    }
  }

  // ---------------------------------------------------------------- writers' blocks are commits

  /** An insert that meets an existing key makes its block fail. */
  lemma {:induction false} CollisionFails(cfg: Config, sch: Schema, env: Env, t: Table, w: map<string, Op>, order: seq<string>, tick: nat, k: string)
    requires Fits(cfg, sch) && IdsUnconverted(cfg) && k in order && k in t
    requires forall x :: x in order ==> x in w && CleanOp(cfg, w[x]) && w[x].id == x
    ensures !RunStmts(sch, env, t, InsertStmts(cfg, w, order), tick).ok
    decreases |order|
  {
    hide CleanOp;
    hide Fits;
    hide RowAt;
    hide InsertStmt;
    var stmts, x, rest := InsertStmts(cfg, w, order), order[0], order[1..];
    assert x in order && order == [x] + rest;
    assert stmts[0] == InsertStmt(cfg, w[x].cells) && stmts[1..] == InsertStmts(cfg, w, rest);
    if x in t {
      ExecCollides(cfg, sch, env, t, w[x], tick);
    } else {
      ExecInsert(cfg, sch, env, t, w[x], tick);
      hide ExecStmt;
      CollisionFails(cfg, sch, env, t[x := RowAt(cfg, env, w[x], tick)], w, rest, tick + 1, k);
    }
  }

  lemma ExecCollides(cfg: Config, sch: Schema, env: Env, t: Table, op: Op, tick: nat)
    requires Fits(cfg, sch) && IdsUnconverted(cfg) && CleanOp(cfg, op) && op.id in t
    ensures ExecStmt(sch, t, InsertStmt(cfg, op.cells), env.time(tick)).None?
  {
    hide Content;
    hide Stamped;
    hide Lower;
    hide MakeRow;
    InsertMakes(cfg, sch, op, env.time(tick));
  }

  lemma StampOfRowAt(s: Setup, cfg: Config, env: Env, op: Op, n: nat)
    requires cfg.sinceColumn != "" && Lower(cfg.sinceColumn) == Lower(s.def.sinceColumn)
    ensures StampOf(s.def, RowAt(cfg, env, op, n)) == Some(CutTo(env.time(n), Digits(cfg)))
  {
    hide Content;
    hide Lower;
  }

  lemma CommitLegal(s: Setup, w: World, after: Table)
    requires Keyed(s.sch, after) && StampedTable(s.def, after) && FreshRows(s.def, w.high, w.table, after)
    ensures Legal(s, w, Commit(after))
  {
  }

  /** The rows of a table that keeps old rows and stamps new ones by this clock. */
  lemma StampedIsFresh(s: Setup, w: World, e: Event, winners: map<string, Op>, after: Table, to: nat)
    requires e.Block? && Legal(s, w, e) && StampedTable(s.def, w.table)
    requires forall k :: k in after ==> OldOrStamped(e.cfg, e.env, w.table, winners, k, after[k], e.c.tick + 1, to)
    ensures StampedTable(s.def, after) && FreshRows(s.def, w.high, w.table, after)
  {
    var cfg, env := e.cfg, e.env;
    hide RowAt;
    hide IsStored;
    hide Rank;
    hide StampOf;
    hide Fits;
    hide CleanBatch;
    hide CutTo;
    hide Digits;
    hide RankOf;
    forall k | k in after
      ensures StampOf(s.def, after[k]).Some? && IsStored(StampOf(s.def, after[k]).value)
      ensures (k in w.table && after[k] == w.table[k]) || RankOf(s.def, after[k]) > w.high
    {
      assert OldOrStamped(cfg, env, w.table, winners, k, after[k], e.c.tick + 1, to);
      if k in winners {
        var n: nat :| e.c.tick + 1 <= n < to && after[k] == RowAt(cfg, env, winners[k], n);
        StampOfRowAt(s, cfg, env, winners[k], n);
      }
    }
  }

  lemma DeletesAreCommit(s: Setup, w: World, e: Event)
    requires Inv(s, w) && e.Block? && !e.inserts && Legal(s, w, e)
    ensures Legal(s, w, Commit(BlockAfter(s.sch, e)))
  {
    var after := FlushDeletes(e.cfg, s.sch, e.env, e.batch, e.c).0.committed;
    assert BlockAfter(s.sch, e) == after && e.c.committed == w.table;
    DeleteHalf(e.cfg, s.sch, e.env, e.batch, e.c);
    assert after == w.table || after == Delete(w.table, Ids(e.batch));
    hide FlushDeletes;
    hide Fits;
    hide CleanBatch;
    hide StampOf;
    hide IsStored;
    hide Ids;
    hide BlockAfter;
    hide Inv;
    assert StampedTable(s.def, w.table) && Keyed(s.sch, w.table) by { InvFacts(s, w); }
    CommitLegal(s, w, after);
  }

  lemma InvFacts(s: Setup, w: World)
    requires Inv(s, w)
    ensures StampedTable(s.def, w.table) && Keyed(s.sch, w.table)
  {
  }

  lemma InsertsAreCommit(s: Setup, w: World, e: Event)
    requires Inv(s, w) && e.Block? && e.inserts && Legal(s, w, e)
    ensures Legal(s, w, Commit(BlockAfter(s.sch, e)))
  {
    InvFacts(s, w);
    hide Inv;
    hide Fits;
    hide CleanBatch;
    hide StampedTable;
    var f, winners := FlushInserts(e.cfg, s.sch, e.env, e.batch, e.c), Winners(e.batch);
    assert BlockAfter(s.sch, e) == f.0.committed && e.c.committed == w.table;
    if k :| k in winners && k in w.table {
      InsertsCollide(e.cfg, s.sch, e.env, e.batch, e.c, k);
      CommitNothing(s, w);
    } else {
      InsertHalf(e.cfg, s.sch, e.env, e.batch, e.c);
      assert f.1 ==> Keyed(s.sch, f.0.committed);
      hide *;
      if f.1 {
        StampedIsFresh(s, w, e, winners, f.0.committed, f.0.tick);
        CommitLegal(s, w, f.0.committed);
      } else {
        CommitNothing(s, w);
      }
    }
  }

  lemma CommitNothing(s: Setup, w: World)
    requires StampedTable(s.def, w.table) && Keyed(s.sch, w.table)
    ensures Legal(s, w, Commit(w.table))
  {
  }

  lemma {:induction false} BlockIsCommit(s: Setup, w: World, e: Event)
    requires Inv(s, w) && e.Block? && Legal(s, w, e)
    ensures Legal(s, w, Commit(BlockAfter(s.sch, e)))
  {
    if e.inserts {
      InsertsAreCommit(s, w, e);
    } else {
      DeletesAreCommit(s, w, e);
    }
  }

  lemma {:induction false} InsertsCollide(cfg: Config, sch: Schema, env: Env, batch: seq<Op>, c: Conn, k: string)
    requires env.Valid() && Fits(cfg, sch) && IdsUnconverted(cfg) && CleanBatch(cfg, batch) && FlushEffect.Idle(sch, c)
    requires k in Winners(batch) && k in c.committed
    ensures FlushInserts(cfg, sch, env, batch, c).0.committed == c.committed
  {
    var w := Winners(batch);
    var order := env.order(w.Keys, c.tick);
    assert IsListing(order, w.Keys);
    ListingFacts(order, w);
    assert k in order;
    WinnersAreClean(cfg, batch);
    assert FlushInserts(cfg, sch, env, batch, c) == Attempt(sch, env, c, SqlText.BlockText(InsertStmts(cfg, w, order)));
    hide *;
    InsertsAreReadable(cfg, sch, w, order);
    AttemptBlock(sch, env, c, InsertStmts(cfg, w, order));
    CollisionFails(cfg, sch, env, c.committed, w, order, c.tick + 1, k);
  }

  // ---------------------------------------------------------------- whole runs

  lemma StepKeepsInv(s: Setup, w: World, e: Event)
    requires Follows(s) && Inv(s, w) && Legal(s, w, e)
    ensures Inv(s, Step(s, w, e))
  {
    assert e.Block? ==> e.env.Valid();
    hide Inv;
    hide Legal;
    match e
    case Commit(after) => CommitKeepsInv(s, w, after);
    case Block(_, _, _, _, _) =>
      BlockIsCommit(s, w, e);
      CommitKeepsInv(s, w, BlockAfter(s.sch, e));
    case AskMax(l) => AskMaxKeepsInv(s, w, l);
    case AskData(l) => AskDataKeepsInv(s, w, l);
  }

  lemma {:induction false} RunKeepsInv(s: Setup, w: World, events: seq<Event>)
    requires Follows(s) && Inv(s, w) && LegalRun(s, w, events)
    ensures Inv(s, Run(s, w, events))
    decreases |events|
  {
    assert events != [] && events[0].Block? ==> events[0].env.Valid();
    hide Inv;
    hide Follows;
    hide Legal;
    hide Step;
    if events != [] {
      StepKeepsInv(s, w, events[0]);
      RunKeepsInv(s, Step(s, w, events[0]), events[1..]);
    }
  }

  lemma StartInv(s: Setup, w: World)
    requires Start(s, w)
    ensures Inv(s, w)
  {
  }

  /** A read whose two queries no writer separates leaves the consumer with the current row of every id. */
  lemma {:induction false} ReadFollows(s: Setup, w: World, l: seq<Row>, l': seq<Row>)
    requires Follows(s) && Inv(s, w) && IsListing(l, w.table.Values) && IsListing(l', w.table.Values)
    ensures var after := DataStep(s, MaxStep(s, w, l), l');
            forall k :: k in w.table ==> k in after.replica && after.replica[k] == Given(s, w.table[k])
  {
    var w1 := MaxStep(s, w, l);
    assert w1.table == w.table && LegalRun(s, w1, []) && Between(s, w, l, []) == w1 && OnlyWriters([]);
    assert LegalRead(s, w, l, [], l');
    hide *;
    SurvivorsDelivered(s, w, l, [], l');
    forall k | k in w1.table ensures InSync(s, DataStep(s, w1, l'), k) {}
    InSyncMeans(s, DataStep(s, w1, l'));
  }

  /**
   * The replica follows the table: after any interleaving of writers and reads, a read whose two
   * queries no writer separates leaves the consumer with exactly the current row of every id.
   */
  lemma {:induction false} ReplicaFollows(s: Setup, start: World, events: seq<Event>, l: seq<Row>, l': seq<Row>)
    requires Follows(s) && Start(s, start) && LegalRun(s, start, events)
    requires var w := Run(s, start, events); IsListing(l, w.table.Values) && IsListing(l', w.table.Values)
    ensures var w := DataStep(s, MaxStep(s, Run(s, start, events), l), l');
            w.table == Run(s, start, events).table &&
            forall k :: k in w.table ==> k in w.replica && w.replica[k] == Given(s, w.table[k])
  {
    var w0 := Run(s, start, events);
    assert DataStep(s, MaxStep(s, w0, l), l').table == w0.table;
    hide *;
    StartInv(s, start);
    RunKeepsInv(s, start, events);
    ReadFollows(s, w0, l, l');
  }

  /** The same, by column: without a data query the consumer holds the whole row, or exactly the mapped properties. */
  lemma {:induction false} ReplicaHoldsColumns(s: Setup, start: World, events: seq<Event>, l: seq<Row>, l': seq<Row>)
    requires Follows(s) && Start(s, start) && LegalRun(s, start, events) && s.def.dataQuery == "" && Lexer.IsWord(s.def.tableName)
    requires var w := Run(s, start, events); IsListing(l, w.table.Values) && IsListing(l', w.table.Values)
    ensures var w := DataStep(s, MaxStep(s, Run(s, start, events), l), l');
            forall k :: k in w.table ==>
              k in w.replica && (AsksForAll(s.def) ==> w.replica[k] == w.table[k]) &&
              forall ps :: AsksFor(s.def, ps) ==> HasColumns(ps, w.table[k], w.replica[k])
  {
    assert forall row :: Given(s, row) == Project(Shape(s.def), row);
    hide *;
    ReplicaFollows(s, start, events, l, l');
    var w := DataStep(s, MaxStep(s, Run(s, start, events), l), l');
    forall k | k in w.table
      ensures k in w.replica && (AsksForAll(s.def) ==> w.replica[k] == w.table[k])
      ensures forall ps :: AsksFor(s.def, ps) ==> HasColumns(ps, w.table[k], w.replica[k])
    {
      GivenColumns(s.def, w.table[k]);
    }
  }

  lemma InSyncMeans(s: Setup, w: World)
    ensures forall k :: k in w.table && InSync(s, w, k) ==> k in w.replica && w.replica[k] == Given(s, w.table[k])
  {
  }

  ghost predicate OnlyWriters(events: seq<Event>) {
    forall i :: 0 <= i < |events| ==> events[i].Commit? || events[i].Block?
  }

  /** While writers run, the reader's part of the world stands still. */
  lemma {:induction false} WritersOnly(s: Setup, w: World, events: seq<Event>)
    requires LegalRun(s, w, events) && OnlyWriters(events)
    ensures Run(s, w, events) == w.(table := Run(s, w, events).table)
    decreases |events|
  {
    assert events != [] && events[0].Block? ==> events[0].env.Valid();
    hide BlockAfter;
    hide Legal;
    if events != [] {
      assert OnlyWriters(events[1..]);
      WritersOnly(s, Step(s, w, events[0]), events[1..]);
    }
  }

  /** A read may start in w, with these writers between its queries and these listings of what each query sees. */
  ghost predicate LegalRead(s: Setup, w: World, l: seq<Row>, writers: seq<Event>, l': seq<Row>) {
    && IsListing(l, w.table.Values)
    && LegalRun(s, MaxStep(s, w, l), writers) && OnlyWriters(writers)
    && IsListing(l', Run(s, MaxStep(s, w, l), writers).table.Values)
  }

  /** The world between the queries of a read, after the writers. */
  ghost function Between(s: Setup, w: World, l: seq<Row>, writers: seq<Event>): World
    requires LegalRun(s, MaxStep(s, w, l), writers)
  {
    Run(s, MaxStep(s, w, l), writers)
  }

  lemma {:induction false} LegalReadParts(s: Setup, w: World, l: seq<Row>, writers: seq<Event>, l': seq<Row>)
    requires LegalRead(s, w, l, writers, l')
    ensures IsListing(l, w.table.Values) && LegalRun(s, MaxStep(s, w, l), writers) && OnlyWriters(writers)
    ensures Between(s, w, l, writers) == Run(s, MaxStep(s, w, l), writers) && IsListing(l', Between(s, w, l, writers).table.Values)
    ensures Legal(s, w, AskMax(l))
  {
    hide LegalRun;
    hide Run;
    hide OnlyWriters;
    hide MaxStep;
    hide IsListing;
  }

  lemma {:induction false} AskedWorld(s: Setup, w: World, l: seq<Row>)
    ensures var w1 := MaxStep(s, w, l); w1.asked == AskedFor(MaxStamp(s.def, l)) && Bound(w1) == RankOfMark(w1.asked.max)
  {
    hide MaxStamp;
    hide RankOfMark;
  }

  lemma ReadyForData(s: Setup, w: World, l: seq<Row>)
    requires Inv(s, w) && w.asked.AskedFor? && IsListing(l, w.table.Values)
    ensures WellFormed(s, w) && Legal(s, w, AskData(l))
  {
    hide WellFormed;
    hide Bounded;
    hide Synced;
    hide Logged;
    hide OnceOnly;
    hide IsListing;
  }

  lemma {:induction false} BetweenFacts(s: Setup, w: World, l: seq<Row>, writers: seq<Event>, l': seq<Row>)
    requires Follows(s) && Inv(s, w) && LegalRead(s, w, l, writers, l')
    ensures LegalRun(s, MaxStep(s, w, l), writers)
    ensures var w2 := Between(s, w, l, writers);
            && Inv(s, w2) && WellFormed(s, w2) && Legal(s, w2, AskData(l')) && w2.asked.AskedFor?
            && (w2.asked.max.None? ==> w.table == map[])
            && forall k :: k in w.table ==> RankOf(s.def, w.table[k]) <= RankOfMark(w2.asked.max)
  {
    hide *;
    var w1 := MaxStep(s, w, l);
    LegalReadParts(s, w, l, writers, l');
    AskMaxKeepsInv(s, w, l);
    AskedWorld(s, w, l);
    RunKeepsInv(s, w1, writers);
    WritersOnly(s, w1, writers);
    ReadyForData(s, Between(s, w, l, writers), l');
  }

  /** Every row version that survives from the first query of a read to its second is delivered by it or was before. */
  lemma {:induction false} SurvivorsDelivered(s: Setup, w: World, l: seq<Row>, writers: seq<Event>, l': seq<Row>)
    requires Follows(s) && Inv(s, w) && LegalRead(s, w, l, writers, l')
    ensures var w2 := Between(s, w, l, writers);
            var w3 := DataStep(s, w2, l');
            w3.table == w2.table && forall k :: k in w.table && k in w2.table && w2.table[k] == w.table[k] ==> InSync(s, w3, k)
  {
    hide *;
    FollowsParts(s);
    BetweenFacts(s, w, l, writers, l');
    var w2 := Between(s, w, l, writers);
    DataPicks(s, w2, l');
    var rows := ReadRows(s.def, s.sch.name, w2.token, w2.asked.max, 0, l').value;
    DataStepShape(s, w2, l');
    DeliveredTable(s, w2, rows);
    forall k | k in w.table && k in w2.table && w2.table[k] == w.table[k] ensures InSync(s, Delivered(s, w2, rows), k) {
      DeliveredInSync(s, w2, rows, k);
    }
  }

  lemma DeliveredTable(s: Setup, w: World, rows: seq<Row>)
    requires w.asked.AskedFor?
    ensures Delivered(s, w, rows).table == w.table
  {
  }

  lemma {:induction false} AbsorbConcat(s: Setup, replica: Table, a: seq<Row>, b: seq<Row>)
    ensures Absorb(s, replica, a + b) == Absorb(s, Absorb(s, replica, a), b)
  {
    hide GivenKey;
    hide Given;
    if b == [] {
      assert a + b == a;
    } else {
      assert (a + b)[..|a + b| - 1] == a + b[..|b| - 1];
      AbsorbConcat(s, replica, a, b[..|b| - 1]);
    }
  }

  lemma {:induction false} StepAbsorbs(s: Setup, w: World, e: Event)
    requires w.replica == Absorb(s, map[], w.log) && (e.Block? ==> e.env.Valid())
    ensures Step(s, w, e).replica == Absorb(s, map[], Step(s, w, e).log)
  {
    hide ReadRows;
    hide Absorb;
    hide BlockAfter;
    hide MaxStamp;
    hide RankOfMark;
    hide TokenOf;
    if e.AskData? && w.asked.AskedFor? {
      var r := ReadRows(s.def, s.sch.name, w.token, w.asked.max, 0, e.listing);
      if r.Some? { AbsorbConcat(s, map[], w.log, r.value); }
    }
  }

  lemma {:induction false} ReplicaIsLog(s: Setup, w: World, events: seq<Event>)
    requires w.replica == Absorb(s, map[], w.log) && LegalRun(s, w, events)
    ensures Run(s, w, events).replica == Absorb(s, map[], Run(s, w, events).log)
    decreases |events|
  {
    assert events != [] && events[0].Block? ==> events[0].env.Valid();
    hide Legal;
    hide Step;
    hide Absorb;
    if events != [] {
      StepAbsorbs(s, w, events[0]);
      ReplicaIsLog(s, Step(s, w, events[0]), events[1..]);
    }
  }

  lemma {:induction false} AbsorbedIsLast(s: Setup, rows: seq<Row>, k: string) returns (i: nat)
    ensures var r := Absorb(s, map[], rows);
            if k in r then
              i < |rows| && GivenKey(s, rows[i]) == k && r[k] == Given(s, rows[i]) && forall j :: i < j < |rows| ==> GivenKey(s, rows[j]) != k
            else forall j :: 0 <= j < |rows| ==> GivenKey(s, rows[j]) != k
  {
    hide GivenKey;
    hide Given;
    i := 0;
    if rows != [] {
      var init, n := rows[..|rows| - 1], |rows| - 1;
      i := AbsorbedIsLast(s, init, k);
      assert forall j :: 0 <= j < n ==> rows[j] == init[j];
      if GivenKey(s, rows[n]) == k { i := n; }
    }
  }

  /**
   * What may linger, over any run: the consumer holds exactly the ids that were ever delivered, each
   * with the row of its last delivery, whether or not the row is still in the table.
   */
  lemma {:induction false} OnlyDeliveredLingers(s: Setup, start: World, events: seq<Event>, k: string) returns (i: nat)
    requires Start(s, start) && LegalRun(s, start, events)
    ensures var w := Run(s, start, events);
            if k in w.replica then
              i < |w.log| && GivenKey(s, w.log[i]) == k && w.replica[k] == Given(s, w.log[i]) &&
              forall j :: i < j < |w.log| ==> GivenKey(s, w.log[j]) != k
            else forall j :: 0 <= j < |w.log| ==> GivenKey(s, w.log[j]) != k
  {
    StartIsEmpty(s, start);
    hide *;
    ReplicaIsLog(s, start, events);
    i := AbsorbedIsLast(s, Run(s, start, events).log, k);
  }

  lemma {:induction false} StartIsEmpty(s: Setup, w: World)
    requires Start(s, w)
    ensures w.replica == Absorb(s, map[], w.log)
  {
  }

  /** Over any run no row version is delivered twice, unless it was delivered by a read whose maximum was NULL. */
  lemma {:induction false} NothingTwice(s: Setup, start: World, events: seq<Event>)
    requires Follows(s) && Start(s, start) && LegalRun(s, start, events)
    ensures var w := Run(s, start, events);
            forall i, j :: 0 <= i < j < |w.log| && w.log[i] == w.log[j] ==> w.log[i] in w.early
  {
    StartInv(s, start);
    RunKeepsInv(s, start, events);
  }

  /** A NULL maximum means an empty table, so what that read delivers early was committed after its first query. */
  lemma {:induction false} EarlyRowsAreNew(s: Setup, w: World, l: seq<Row>)
    requires Follows(s) && Inv(s, w) && IsListing(l, w.table.Values)
    ensures MaxStep(s, w, l).asked == AskedFor(None) <==> w.table == map[]
  {
    AskMaxKeepsInv(s, w, l);
  }
}
