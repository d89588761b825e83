/** The writer's calls as events of the replica protocol: from the stream of entities to the consumer. */
module WriterReplica {
  import opened Basics
  import opened Batches
  import opened Database
  import opened Timestamps
  import opened WriterSpec
  import opened WriterRuns
  import opened Gathering
  import opened FlushMeaning
  import opened FlushEffect
  import opened BaseQueries
  import opened ReadMeaning
  import opened Replica

  // ---------------------------------------------------------------- a writer beside the readers

  /** From this tick on the clock reads times that are stored as they are and later than every maximum read so far. */
  ghost predicate ClockAfter(cfg: Config, env: Env, tick: nat, high: nat) {
    forall n: nat :: n >= tick ==> var t := CutTo(env.time(n), Digits(cfg)); IsStored(t) && Rank(t) > high
  }

  /** A writer of the table, between calls: its transaction has ended or has nothing pending. */
  ghost predicate WriterAt(s: Setup, w: World, cfg: Config, env: Env, c: Conn) {
    && env.Valid() && Fits(cfg, s.sch) && IdsUnconverted(cfg)
    && c.committed == w.table && (c.done || FlushEffect.Idle(s.sch, c))
    && cfg.sinceColumn != "" && Lower(cfg.sinceColumn) == Lower(s.def.sinceColumn)
    && ClockAfter(cfg, env, c.tick, w.high)
  }

  lemma WriterMoves(s: Setup, w: World, cfg: Config, env: Env, c: Conn, c': Conn)
    requires WriterAt(s, w, cfg, env, c) && c.tick <= c'.tick && (c'.done || FlushEffect.Idle(s.sch, c'))
    ensures WriterAt(s, w.(table := c'.committed), cfg, env, c')
  {
    hide Fits;
    hide IsStored;
    hide Rank;
    hide FlushEffect.Idle;
  }

  // ---------------------------------------------------------------- joining runs

  /** A run is its first event and the rest. */
  lemma {:induction false} RunParts(s: Setup, w: World, events: seq<Event>)
    requires events != []
    ensures Legal(s, w, events[0]) && events[0].Block? ==> events[0].env.Valid()
    ensures LegalRun(s, w, events) ==> Legal(s, w, events[0])
    ensures Legal(s, w, events[0]) ==> (LegalRun(s, w, events) <==> LegalRun(s, Step(s, w, events[0]), events[1..]))
    ensures LegalRun(s, w, events) ==> Run(s, w, events) == Run(s, Step(s, w, events[0]), events[1..])
  {
    assert Legal(s, w, events[0]) && events[0].Block? ==> events[0].env.Valid();
    hide Legal;
    hide Step;
  }

  lemma {:induction false} RunConcat(s: Setup, w: World, a: seq<Event>, b: seq<Event>)
    requires LegalRun(s, w, a) && LegalRun(s, Run(s, w, a), b)
    ensures LegalRun(s, w, a + b) && Run(s, w, a + b) == Run(s, Run(s, w, a), b)
    decreases |a|
  {
    hide *;
    if a == [] {
      NoEvents(s, w);
      assert a + b == b;
    } else {
      RunParts(s, w, a);
      RunParts(s, w, a + b);
      assert (a + b)[0] == a[0] && (a + b)[1..] == a[1..] + b;
      RunConcat(s, Step(s, w, a[0]), a[1..], b);
    }
  }

  lemma WritersConcat(a: seq<Event>, b: seq<Event>)
    requires OnlyWriters(a) && OnlyWriters(b)
    ensures OnlyWriters(a + b)
  {
  }

  lemma {:induction false} NoEvents(s: Setup, w: World)
    ensures LegalRun(s, w, []) && Run(s, w, []) == w && OnlyWriters([]) && w.(table := w.table) == w
  {
  }

  lemma {:induction false} OneEvent(s: Setup, w: World, e: Event)
    requires e.Block? && Legal(s, w, e)
    ensures e.env.Valid() && LegalRun(s, w, [e]) && Run(s, w, [e]) == w.(table := BlockAfter(s.sch, e)) && OnlyWriters([e])
  {
    hide BlockAfter;
    assert [e][1..] == [];
  }

  // ---------------------------------------------------------------- one flush

  lemma DeleteIsBlock(s: Setup, w: World, cfg: Config, env: Env, batch: seq<Op>, c: Conn) returns (events: seq<Event>)
    requires WriterAt(s, w, cfg, env, c) && !c.done && CleanBatch(cfg, batch) && batch != []
    ensures LegalRun(s, w, events) && OnlyWriters(events)
    ensures Run(s, w, events) == w.(table := FlushDeletes(cfg, s.sch, env, batch, c).0.committed)
  {
    events := [Block(cfg, env, batch, c, false)];
    assert Legal(s, w, events[0]);
    hide FlushDeletes;
    hide Legal;
    OneEvent(s, w, events[0]);
  }

  lemma InsertIsBlock(s: Setup, w: World, cfg: Config, env: Env, batch: seq<Op>, c: Conn) returns (events: seq<Event>)
    requires WriterAt(s, w, cfg, env, c) && !c.done && CleanBatch(cfg, batch) && Winners(batch) != map[]
    ensures LegalRun(s, w, events) && OnlyWriters(events)
    ensures Run(s, w, events) == w.(table := FlushInserts(cfg, s.sch, env, batch, c).0.committed)
  {
    events := [Block(cfg, env, batch, c, true)];
    assert Legal(s, w, events[0]);
    hide FlushInserts;
    hide Legal;
    OneEvent(s, w, events[0]);
  }

  /** Where the delete half of a flush leaves the writer. */
  lemma AfterDeletes(s: Setup, w: World, cfg: Config, env: Env, batch: seq<Op>, c: Conn)
    requires WriterAt(s, w, cfg, env, c) && !c.done && CleanBatch(cfg, batch) && batch != []
    ensures var d := FlushDeletes(cfg, s.sch, env, batch, c);
            && WriterAt(s, w.(table := d.0.committed), cfg, env, d.0) && (d.1 ==> !d.0.done)
  {
    assert FlushEffect.Idle(s.sch, c) && Fits(cfg, s.sch) && IdsUnconverted(cfg);
    DeleteHalf(cfg, s.sch, env, batch, c);
    hide WriterAt;
    hide FlushDeletes;
    hide Fits;
    hide CleanBatch;
    hide Delete;
    hide Ids;
    WriterMoves(s, w, cfg, env, c, FlushDeletes(cfg, s.sch, env, batch, c).0);
  }

  lemma AfterFlush(s: Setup, w: World, cfg: Config, env: Env, batch: seq<Op>, c: Conn)
    requires WriterAt(s, w, cfg, env, c) && CleanBatch(cfg, batch)
    ensures var c' := Flush(cfg, s.sch, env, batch, c).0; WriterAt(s, w.(table := c'.committed), cfg, env, c')
  {
    assert env.Valid() && Fits(cfg, s.sch) && IdsUnconverted(cfg) && (c.done || FlushEffect.Idle(s.sch, c));
    var c' := Flush(cfg, s.sch, env, batch, c).0;
    if c.done { EndedFlush(cfg, s.sch, env, batch, c); } else { FlushMeans(cfg, s.sch, env, batch, c); }
    assert c.tick <= c'.tick && (c'.done || FlushEffect.Idle(s.sch, c'));
    hide *;
    WriterMoves(s, w, cfg, env, c, c');
  }

  /** A flush is a legal run of its delete block and its insert block, as far as they are sent. */
  lemma {:induction false} FlushIsBlocks(s: Setup, w: World, cfg: Config, env: Env, batch: seq<Op>, c: Conn) returns (events: seq<Event>)
    requires WriterAt(s, w, cfg, env, c) && CleanBatch(cfg, batch)
    ensures LegalRun(s, w, events) && OnlyWriters(events)
    ensures Run(s, w, events) == w.(table := Flush(cfg, s.sch, env, batch, c).0.committed)
  {
    assert env.Valid() && c.committed == w.table;
    IdsExact(batch);
    FlushCases(cfg, s.sch, env, batch, c);
    hide *;
    events := [];
    NoEvents(s, w);
    if c.done {
      EndedFlush(cfg, s.sch, env, batch, c);
    } else if batch != [] {
      events := DeleteIsBlock(s, w, cfg, env, batch, c);
      var d := FlushDeletes(cfg, s.sch, env, batch, c);
      AfterDeletes(s, w, cfg, env, batch, c);
      if d.1 && Winners(batch) != map[] {
        var more := InsertIsBlock(s, w.(table := d.0.committed), cfg, env, batch, d.0);
        RunConcat(s, w, events, more);
        WritersConcat(events, more);
        events := events + more;
      }
    }
  }

  // ---------------------------------------------------------------- one call

  /** What the call writes, if anything, is clean. */
  ghost predicate CleanCall(cfg: Config, call: Call) {
    call.CallWrite? && Accept(cfg, call.e).Some? ==> CleanOp(cfg, Accept(cfg, call.e).value)
  }

  /** A call of the writer is a legal run of the blocks it sends, and leaves a writer between calls. */
  lemma {:induction false} CallIsBlocks(s: Setup, w: World, cfg: Config, env: Env, m: Machine, call: Call) returns (events: seq<Event>)
    requires WriterAt(s, w, cfg, env, m.conn) && CleanBatch(cfg, m.batch) && CleanCall(cfg, call)
    ensures var m' := Perform(cfg, s.sch, env, m, call).0;
            && LegalRun(s, w, events) && OnlyWriters(events) && Run(s, w, events) == w.(table := m'.conn.committed)
            && WriterAt(s, w.(table := m'.conn.committed), cfg, env, m'.conn) && CleanBatch(cfg, m'.batch)
  {
    assert env.Valid() && m.conn.committed == w.table;
    NoEvents(s, w);
    match call {
      case CallClose =>
        events := FlushIsBlocks(s, w, cfg, env, m.batch, m.conn);
        AfterFlush(s, w, cfg, env, m.batch, m.conn);
        AfterClose(s, w, cfg, env, m);
        hide *;
      case CallWrite(e) =>
        match Accept(cfg, e) {
          case None =>
            assert Perform(cfg, s.sch, env, m, call).0 == m;
            events := [];
            hide *;
          case Some(op) =>
            assert Perform(cfg, s.sch, env, m, call) == WriteOp(cfg, s.sch, env, m, op) && CleanOp(cfg, op);
            hide *;
            events := WriteIsBlocks(s, w, cfg, env, m, op);
        }
    }
  }

  /** The commit of Close adds nothing to what its flush has committed. */
  lemma AfterClose(s: Setup, w: World, cfg: Config, env: Env, m: Machine)
    requires WriterAt(s, w, cfg, env, m.conn) && CleanBatch(cfg, m.batch)
    ensures var f, m' := Flush(cfg, s.sch, env, m.batch, m.conn).0, Perform(cfg, s.sch, env, m, CallClose).0;
            m'.conn.committed == f.committed && WriterAt(s, w.(table := f.committed), cfg, env, m'.conn) && m'.batch == m.batch
  {
    AfterFlush(s, w, cfg, env, m.batch, m.conn);
    var f, m' := Flush(cfg, s.sch, env, m.batch, m.conn).0, Perform(cfg, s.sch, env, m, CallClose).0;
    hide Flush;
    assert f.tick <= m'.conn.tick && (m'.conn.done || m'.conn == f) && m'.conn.committed == f.committed;
    hide Close;
    WriterMoves(s, w.(table := f.committed), cfg, env, f, m'.conn);
  }

  lemma WriteIsBlocks(s: Setup, w: World, cfg: Config, env: Env, m: Machine, op: Op) returns (events: seq<Event>)
    requires WriterAt(s, w, cfg, env, m.conn) && CleanBatch(cfg, m.batch) && CleanOp(cfg, op)
    ensures env.Valid()
    ensures var m' := WriteOp(cfg, s.sch, env, m, op).0;
            && LegalRun(s, w, events) && OnlyWriters(events) && Run(s, w, events) == w.(table := m'.conn.committed)
            && WriterAt(s, w.(table := m'.conn.committed), cfg, env, m'.conn) && CleanBatch(cfg, m'.batch)
  {
    assert env.Valid() && m.conn.committed == w.table;
    var batch := m.batch + [op];
    assert CleanBatch(cfg, batch) && CleanBatch(cfg, []);
    var m' := WriteOp(cfg, s.sch, env, m, op).0;
    assert m'.batch in {[], batch};
    if Size(batch) >= cfg.flushThreshold {
      assert m'.conn == Flush(cfg, s.sch, env, batch, m.conn).0;
      hide *;
      events := FlushIsBlocks(s, w, cfg, env, batch, m.conn);
      AfterFlush(s, w, cfg, env, batch, m.conn);
    } else {
      assert m'.conn == m.conn;
      hide *;
      events := [];
      NoEvents(s, w);
    }
  }

  // ---------------------------------------------------------------- whole runs of the writer

  /** Any sequence of calls, with any failures, is a legal run of the protocol, so it may be interleaved with reads. */
  lemma {:induction false} CallsAreBlocks(s: Setup, w: World, cfg: Config, env: Env, m: Machine, calls: seq<Call>) returns (events: seq<Event>)
    requires WriterAt(s, w, cfg, env, m.conn) && CleanBatch(cfg, m.batch) && forall i :: 0 <= i < |calls| ==> CleanCall(cfg, calls[i])
    ensures env.Valid()
    ensures var m' := PerformAll(cfg, s.sch, env, m, calls);
            && LegalRun(s, w, events) && OnlyWriters(events) && Run(s, w, events) == w.(table := m'.conn.committed)
            && WriterAt(s, w.(table := m'.conn.committed), cfg, env, m'.conn) && CleanBatch(cfg, m'.batch)
    decreases |calls|
  {
    assert env.Valid() && m.conn.committed == w.table;
    if calls == [] {
      hide Perform;
      assert PerformAll(cfg, s.sch, env, m, calls) == m;
      hide *;
      events := [];
      NoEvents(s, w);
    } else {
      var m1 := Perform(cfg, s.sch, env, m, calls[0]).0;
      assert PerformAll(cfg, s.sch, env, m, calls) == PerformAll(cfg, s.sch, env, m1, calls[1..]);
      hide *;
      events := CallIsBlocks(s, w, cfg, env, m, calls[0]);
      var more := CallsAreBlocks(s, w.(table := m1.conn.committed), cfg, env, m1, calls[1..]);
      RunConcat(s, w, events, more);
      WritersConcat(events, more);
      events := events + more;
    }
  }

  lemma {:induction false} AcceptedIsClean(cfg: Config, es: seq<Entity>, i: nat)
    requires CleanBatch(cfg, Accepted(cfg, es)) && i < |es|
    ensures CleanCall(cfg, CallWrite(es[i]))
    decreases |es|
  {
    hide CleanOp;
    hide Accept;
    var rest := Accepted(cfg, es[1..]);
    match Accept(cfg, es[0]) {
      case None =>
      case Some(op) =>
        assert Accepted(cfg, es)[0] == op && Accepted(cfg, es) == [op] + rest;
        assert forall j :: 0 <= j < |rest| ==> rest[j] == Accepted(cfg, es)[j + 1];
    }
    if i > 0 { AcceptedIsClean(cfg, es[1..], i - 1); }
  }

  /** Writes followed by Close are a legal run that leaves the committed table. */
  lemma {:induction false} StreamIsBlocks(s: Setup, w: World, cfg: Config, env: Env, c: Conn, es: seq<Entity>) returns (events: seq<Event>)
    requires WriterAt(s, w, cfg, env, c) && CleanBatch(cfg, Accepted(cfg, es))
    ensures env.Valid() && LegalRun(s, w, events) && OnlyWriters(events)
    ensures Run(s, w, events) == w.(table := RunAndClose(cfg, s.sch, env, c, es).0.conn.committed)
  {
    assert env.Valid();
    assert CleanBatch(cfg, []);
    var calls := Writes(es);
    forall i | 0 <= i < |calls| ensures CleanCall(cfg, calls[i]) { AcceptedIsClean(cfg, es, i); }
    var m := PerformAll(cfg, s.sch, env, Machine([], c), calls);
    assert RunAndClose(cfg, s.sch, env, c, es) == Perform(cfg, s.sch, env, m, CallClose);
    assert CleanCall(cfg, CallClose);
    hide *;
    events := CallsAreBlocks(s, w, cfg, env, Machine([], c), calls);
    var more := CallIsBlocks(s, w.(table := m.conn.committed), cfg, env, m, CallClose);
    RunConcat(s, w, events, more);
    WritersConcat(events, more);
    events := events + more;
  }

  /**
   * From the stream to the consumer: after any earlier run of writers and reads, writes and a Close
   * that nothing makes fail, and then one read, leave the consumer with the row of every id that
   * applying the batches of the stream asks for, apart from its stamp and cut to the columns it is given.
   */
  lemma {:induction false} StreamReachesConsumer(s: Setup, w: World, cfg: Config, env: Env, c: Conn, es: seq<Entity>, l: seq<Row>, l': seq<Row>)
    returns (events: seq<Event>)
    requires Follows(s) && Inv(s, w) && WriterAt(s, w, cfg, env, c) && !c.done
    requires CleanBatch(cfg, Accepted(cfg, es)) && Calm(env, c.tick)
    requires var t := RunAndClose(cfg, s.sch, env, c, es).0.conn.committed; IsListing(l, t.Values) && IsListing(l', t.Values)
    ensures env.Valid() && LegalRun(s, w, events) && OnlyWriters(events)
    ensures var wanted := ApplyAll(View(cfg, w.table), Batched(cfg, es), RowOf(cfg));
            var w1 := Run(s, w, events);
            var after := DataStep(s, MaxStep(s, w1, l), l');
            && View(cfg, w1.table) == wanted
            && forall k :: k in wanted ==> k in after.replica && after.replica[k] == Given(s, w1.table[k])
    ensures Shape(s.def) == ["*"] ==>
              var wanted := ApplyAll(View(cfg, w.table), Batched(cfg, es), RowOf(cfg));
              var after := DataStep(s, MaxStep(s, Run(s, w, events), l), l');
              forall k :: k in wanted ==> k in after.replica && WithoutStamp(cfg, after.replica[k]) == wanted[k]
  {
    assert env.Valid() && Fits(cfg, s.sch) && IdsUnconverted(cfg) && FlushEffect.Idle(s.sch, c) && c.committed == w.table;
    assert Shape(s.def) == ["*"] ==> forall row :: Given(s, row) == row;
    hide *;
    events := StreamIsBlocks(s, w, cfg, env, c, es);
    RunAppliesBatches(cfg, s.sch, env, c, es);
    var w1 := Run(s, w, events);
    RunKeepsInv(s, w, events);
    ReadFollows(s, w1, l, l');
    ViewKeys(cfg, w1.table);
  }

  lemma ViewKeys(cfg: Config, t: Table)
    ensures View(cfg, t).Keys == t.Keys && forall k :: k in t ==> View(cfg, t)[k] == WithoutStamp(cfg, t[k])
  {
    hide WithoutStamp;
  }
}
