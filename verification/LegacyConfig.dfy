/** The legacy configuration cache and the connection it guards, both keyed by a digest. */
module LegacyConfig {
  import opened Basics

  datatype ColumnMapping = ColumnMapping(
    fieldName: string,
    propertyName: string,
    isIdColumn: bool,
    isReference: bool,
    referenceTemplate: string,
    ignoreColumn: bool)

  datatype TableMapping = TableMapping(
    tableName: string,
    cdcEnabled: bool,
    entityIdConstructor: string,
    columnMappings: seq<ColumnMapping>,
    columns: map<string, ColumnMapping>)

  datatype Datalayer = Datalayer(
    databaseServer: string,
    database: string,
    port: string,
    user: string,
    password: string,
    tables: seq<TableMapping>)

  /** The digest and the parser, which this model does not look into, and the user from the environment. */
  datatype Setting = Setting(digest: string -> nat, parse: string -> Option<Datalayer>, userName: string, password: string)

  /** The digest of a manager that has loaded nothing. */
  const NO_DIGEST: nat := 0

  // ---------------------------------------------------------------- what loading makes of a content

  function SetUser(setting: Setting, config: Datalayer): Datalayer {
    config.(user := if config.user == "" then setting.userName else config.user,
            password := if config.password == "" then setting.password else config.password)
  }

  function Columns(mappings: seq<ColumnMapping>): map<string, ColumnMapping> {
    if mappings == [] then map[]
    else var last := mappings[|mappings| - 1]; Columns(mappings[..|mappings| - 1])[last.fieldName := last]
  }

  /** A field has a column iff some mapping names it, and the last mapping that does decides it. */
  lemma {:induction false} ColumnsByField(mappings: seq<ColumnMapping>, field: string) returns (i: nat)
    ensures if field in Columns(mappings) then
              i < |mappings| && mappings[i].fieldName == field && Columns(mappings)[field] == mappings[i] &&
              forall j :: i < j < |mappings| ==> mappings[j].fieldName != field
            else forall j :: 0 <= j < |mappings| ==> mappings[j].fieldName != field
  {
    i := 0;
    if mappings != [] {
      var init, n := mappings[..|mappings| - 1], |mappings| - 1;
      i := ColumnsByField(init, field);
      assert forall j :: 0 <= j < n ==> mappings[j] == init[j];
      if mappings[n].fieldName == field { i := n; }
    }
  }

  function MapTables(tables: seq<TableMapping>): (r: seq<TableMapping>)
    ensures |r| == |tables|
  {
    seq(|tables|, i requires 0 <= i < |tables| => tables[i].(columns := Columns(tables[i].columnMappings)))
  }

  /** The configuration a content stands for, if it parses. */
  function Parsed(setting: Setting, content: string): Option<Datalayer> {
    match setting.parse(content)
    case None => None
    case Some(config) =>
      var c := SetUser(setting, config);
      Some(c.(tables := MapTables(c.tables)))
  }

  /**
   * What a content stands for: what it parses to, except that an empty user and an empty password are
   * each replaced by their own setting, and every table has its column map.
   */
  lemma ParsedExact(setting: Setting, content: string)
    ensures Parsed(setting, content).Some? <==> setting.parse(content).Some?
    ensures Parsed(setting, content).Some? ==>
              var given, c := setting.parse(content).value, Parsed(setting, content).value;
              && (given.user != "" ==> c.user == given.user) && (given.user == "" ==> c.user == setting.userName)
              && (given.password != "" ==> c.password == given.password) && (given.password == "" ==> c.password == setting.password)
              && c.databaseServer == given.databaseServer && c.database == given.database && c.port == given.port
              && |c.tables| == |given.tables|
              && forall i :: 0 <= i < |c.tables| ==>
                   c.tables[i] == given.tables[i].(columns := Columns(given.tables[i].columnMappings))
  {
  }

  // ---------------------------------------------------------------- the cache

  datatype Cache = Cache(held: Datalayer, digest: nat)

  /** One load: nothing when the content cannot be fetched, has the digest at hand, or does not parse. */
  function LoadStep(setting: Setting, c: Cache, content: Option<string>): Cache {
    match content
    case None => c
    case Some(text) =>
      if setting.digest(text) == c.digest then c
      else match Parsed(setting, text)
        case None => c
        case Some(config) => Cache(config, setting.digest(text))
  }

  function LoadAll(setting: Setting, c: Cache, contents: seq<Option<string>>): Cache {
    if contents == [] then c else LoadStep(setting, LoadAll(setting, c, contents[..|contents| - 1]), contents[|contents| - 1])
  }

  /** Without a cache: every load parses, and what parsed last is held. */
  function LastParsed(setting: Setting, initial: Datalayer, contents: seq<Option<string>>): Datalayer {
    if contents == [] then initial
    else
      var before := LastParsed(setting, initial, contents[..|contents| - 1]);
      match contents[|contents| - 1]
      case None => before
      case Some(text) => match Parsed(setting, text) case None => before case Some(config) => config
  }

  ghost predicate Transparent(setting: Setting, initial: Datalayer, contents: seq<Option<string>>) {
    LoadAll(setting, Cache(initial, NO_DIGEST), contents).held == LastParsed(setting, initial, contents)
  }

  /** Contents that parse and share a digest stand for the same configuration, and the initial digest only for the initial one. */
  ghost predicate Separates(setting: Setting, initial: Datalayer) {
    && (forall a, b :: setting.digest(a) == setting.digest(b) && Parsed(setting, a).Some? && Parsed(setting, b).Some? ==>
          Parsed(setting, a) == Parsed(setting, b))
    && (forall a :: setting.digest(a) == NO_DIGEST && Parsed(setting, a).Some? ==> Parsed(setting, a) == Some(initial))
  }

  /** The held configuration is the initial one, or what some content with the held digest stands for. */
  ghost predicate Explained(setting: Setting, initial: Datalayer, c: Cache) {
    (c.digest == NO_DIGEST && c.held == initial) || exists text :: setting.digest(text) == c.digest && Parsed(setting, text) == Some(c.held)
  }

  lemma {:induction false} CacheFollows(setting: Setting, initial: Datalayer, contents: seq<Option<string>>)
    requires Separates(setting, initial)
    ensures Transparent(setting, initial, contents)
    ensures Explained(setting, initial, LoadAll(setting, Cache(initial, NO_DIGEST), contents))
  {
    hide Parsed;
    if contents != [] {
      var init, last := contents[..|contents| - 1], contents[|contents| - 1];
      CacheFollows(setting, initial, init);
      var c := LoadAll(setting, Cache(initial, NO_DIGEST), init);
      var c' := LoadStep(setting, c, last);
      if last.Some? && setting.digest(last.value) != c.digest && Parsed(setting, last.value).Some? {
        assert setting.digest(last.value) == c'.digest && Parsed(setting, last.value) == Some(c'.held);
      }
    }
  }

  /** The cache is transparent over all runs exactly when digests separate configurations. */
  lemma {:induction false} CacheIsTransparent(setting: Setting, initial: Datalayer)
    ensures (forall contents :: Transparent(setting, initial, contents)) <==> Separates(setting, initial)
  {
    hide Parsed;
    if Separates(setting, initial) {
      forall contents ensures Transparent(setting, initial, contents) { CacheFollows(setting, initial, contents); }
    } else if forall contents :: Transparent(setting, initial, contents) {
      forall a | setting.digest(a) == NO_DIGEST && Parsed(setting, a).Some? ensures Parsed(setting, a) == Some(initial) {
        OneLoad(setting, initial, a);
      }
      forall a, b | setting.digest(a) == setting.digest(b) && Parsed(setting, a).Some? && Parsed(setting, b).Some?
        ensures Parsed(setting, a) == Parsed(setting, b)
      {
        OneLoad(setting, initial, a);
        OneLoad(setting, initial, b);
        TwoLoads(setting, initial, a, b);
      }
    }
  }

  lemma OneLoad(setting: Setting, initial: Datalayer, a: string)
    requires Transparent(setting, initial, [Some(a)]) && Parsed(setting, a).Some?
    ensures setting.digest(a) == NO_DIGEST ==> Parsed(setting, a) == Some(initial)
  {
    AfterOne(setting, initial, a);
  }

  lemma {:induction false} AfterOne(setting: Setting, initial: Datalayer, a: string)
    ensures LoadAll(setting, Cache(initial, NO_DIGEST), [Some(a)]) == LoadStep(setting, Cache(initial, NO_DIGEST), Some(a))
    ensures Parsed(setting, a).Some? ==> Some(LastParsed(setting, initial, [Some(a)])) == Parsed(setting, a)
  {
    hide Parsed;
    hide LoadStep;
    var one: seq<Option<string>> := [Some(a)];
    assert one[..|one| - 1] == [];
    assert LoadAll(setting, Cache(initial, NO_DIGEST), []) == Cache(initial, NO_DIGEST);
  }

  lemma TwoLoads(setting: Setting, initial: Datalayer, a: string, b: string)
    requires Transparent(setting, initial, [Some(a), Some(b)])
    requires setting.digest(a) == setting.digest(b) != NO_DIGEST || Parsed(setting, a) == Parsed(setting, b)
    requires Parsed(setting, a).Some? && Parsed(setting, b).Some?
    ensures Parsed(setting, a) == Parsed(setting, b)
  {
    hide Parsed;
    AfterOne(setting, initial, a);
    var two: seq<Option<string>> := [Some(a), Some(b)];
    assert two[..|two| - 1] == [Some(a)];
    assert LoadAll(setting, Cache(initial, NO_DIGEST), two) ==
           LoadStep(setting, LoadAll(setting, Cache(initial, NO_DIGEST), [Some(a)]), Some(b));
    assert Some(LastParsed(setting, initial, two)) == Parsed(setting, b);
  }

  // ---------------------------------------------------------------- the connection

  datatype Handle = Handle(from: Datalayer, open: bool)

  datatype Repo = Repo(db: Option<Handle>, digest: nat)

  /** A changed digest closes the handle and connects again; a failed attempt leaves the closed handle and the old digest. */
  function EnsureStep(c: Cache, r: Repo, connects: bool): (Repo, bool) {
    if c.digest == r.digest then (r, true)
    else if connects then (Repo(Some(Handle(c.held, true)), c.digest), true)
    else (r.(db := match r.db case None => None case Some(h) => Some(h.(open := false))), false)
  }

  datatype Event = Load(content: Option<string>) | Ensure(connects: bool)

  datatype World = World(cache: Cache, repo: Repo)

  function Step(setting: Setting, w: World, e: Event): World {
    match e
    case Load(content) => w.(cache := LoadStep(setting, w.cache, content))
    case Ensure(connects) => w.(repo := EnsureStep(w.cache, w.repo, connects).0)
  }

  function Run(setting: Setting, w: World, events: seq<Event>): World {
    if events == [] then w else Step(setting, Run(setting, w, events[..|events| - 1]), events[|events| - 1])
  }

  function Initial(initial: Datalayer): World { World(Cache(initial, NO_DIGEST), Repo(None, NO_DIGEST)) }

  /** Event i of the run is an ensure that found a changed digest, so it tried to connect. */
  predicate Attempts(setting: Setting, start: World, events: seq<Event>, i: nat)
    requires i < |events|
  {
    events[i].Ensure? && var w := Run(setting, start, events[..i]); w.cache.digest != w.repo.digest
  }

  /** The last attempt to connect in the run was event i. */
  ghost predicate LastAttempt(setting: Setting, start: World, events: seq<Event>, i: nat)
    requires i < |events|
  {
    Attempts(setting, start, events, i) && forall j :: i < j < |events| ==> !Attempts(setting, start, events, j)
  }

  /** There was an attempt to connect, and the last one succeeded. */
  ghost predicate Connected(setting: Setting, start: World, events: seq<Event>) {
    exists i :: 0 <= i < |events| && LastAttempt(setting, start, events, i) && events[i].connects
  }

  lemma AttemptsBefore(setting: Setting, start: World, events: seq<Event>, e: Event, i: nat)
    requires i < |events|
    ensures Attempts(setting, start, events + [e], i) == Attempts(setting, start, events, i)
  {
    assert (events + [e])[..i] == events[..i];
  }

  /** How one more event changes whether the last attempt succeeded. */
  lemma {:induction false} ConnectedSnoc(setting: Setting, start: World, events: seq<Event>, e: Event)
    ensures var w, all := Run(setting, start, events), events + [e];
            if e.Ensure? && w.cache.digest != w.repo.digest then
              Connected(setting, start, all) <==> e.connects
            else
              Connected(setting, start, all) <==> Connected(setting, start, events)
  {
    var all, n := events + [e], |events|;
    assert all[..n] == events;
    assert Attempts(setting, start, all, n) <==>
           e.Ensure? && Run(setting, start, events).cache.digest != Run(setting, start, events).repo.digest;
    hide Attempts;
    forall i: nat | i < n ensures Attempts(setting, start, all, i) == Attempts(setting, start, events, i) {
      AttemptsBefore(setting, start, events, e, i);
    }
    if Attempts(setting, start, all, n) {
      assert LastAttempt(setting, start, all, n) && all[n] == e;
      if Connected(setting, start, all) {
        var i :| 0 <= i < |all| && LastAttempt(setting, start, all, i) && all[i].connects;
        assert i == n;
      }
    } else {
      forall i: nat | i < n ensures LastAttempt(setting, start, all, i) == LastAttempt(setting, start, events, i) {}
      if i :| 0 <= i < n && LastAttempt(setting, start, events, i) && events[i].connects {
        assert LastAttempt(setting, start, all, i) && all[i].connects;
      }
      if i :| 0 <= i < |all| && LastAttempt(setting, start, all, i) && all[i].connects {
        assert i < n && LastAttempt(setting, start, events, i) && events[i].connects;
      }
    }
  }

  /** The handle was opened from a configuration with the repository's digest, and is open iff the last attempt of the run succeeded. */
  ghost predicate Guarded(setting: Setting, initial: Datalayer, events: seq<Event>) {
    var w := Run(setting, Initial(initial), events);
    && Explained(setting, initial, w.cache)
    && (w.repo.db.None? ==> w.repo.digest == NO_DIGEST && !Connected(setting, Initial(initial), events))
    && (w.repo.db.Some? ==>
          Explained(setting, initial, Cache(w.repo.db.value.from, w.repo.digest)) &&
          (w.repo.db.value.open <==> Connected(setting, Initial(initial), events)))
  }

  lemma {:induction false} RunIsGuarded(setting: Setting, initial: Datalayer, events: seq<Event>)
    ensures Guarded(setting, initial, events)
  {
    hide Parsed;
    hide Connected;
    if events == [] {
      NotConnected(setting, Initial(initial));
    } else {
      var init, e := events[..|events| - 1], events[|events| - 1];
      RunIsGuarded(setting, initial, init);
      assert events == init + [e];
      ConnectedSnoc(setting, Initial(initial), init, e);
      var w := Run(setting, Initial(initial), init);
      var w' := Step(setting, w, e);
      if e.Load? && w'.cache != w.cache {
        assert setting.digest(e.content.value) == w'.cache.digest && Parsed(setting, e.content.value) == Some(w'.cache.held);
      }
    }
  }

  lemma NotConnected(setting: Setting, start: World)
    ensures !Connected(setting, start, [])
  {
  }

  /**
   * When ensureConnection reports success and a configuration is loaded, the handle was opened from
   * the held configuration; it is open exactly when this call found a changed digest, or the last
   * attempt to connect before it succeeded.
   */
  lemma {:induction false} EnsureGuardsConnection(setting: Setting, initial: Datalayer, events: seq<Event>, connects: bool)
    requires Separates(setting, initial)
    ensures var w := Run(setting, Initial(initial), events);
            var (repo, ok) := EnsureStep(w.cache, w.repo, connects);
            ok && w.cache.digest != NO_DIGEST ==>
              repo.db.Some? && repo.db.value.from == w.cache.held &&
              (repo.db.value.open <==> w.cache.digest != w.repo.digest || Connected(setting, Initial(initial), events))
  {
    hide Parsed;
    hide Connected;
    var w := Run(setting, Initial(initial), events);
    RunIsGuarded(setting, initial, events);
    if w.cache.digest == w.repo.digest && w.cache.digest != NO_DIGEST {
      assert Explained(setting, initial, w.cache);
      assert Explained(setting, initial, Cache(w.repo.db.value.from, w.repo.digest));
    }
  }

  /** A failed reconnect followed by a return to the previous content: success is reported on a closed handle. */
  lemma {:induction false} ClosedHandleReported(setting: Setting, initial: Datalayer, a: string, b: string)
    requires Parsed(setting, a).Some? && Parsed(setting, b).Some?
    requires setting.digest(a) != setting.digest(b) && setting.digest(a) != NO_DIGEST
    ensures var w := Run(setting, Initial(initial), [Load(Some(a)), Ensure(true), Load(Some(b)), Ensure(false), Load(Some(a))]);
            EnsureStep(w.cache, w.repo, true) == (w.repo, true) && w.repo.db == Some(Handle(w.cache.held, false))
  {
    hide Parsed;
    var start := Initial(initial);
    RunSnoc(setting, start, [], Load(Some(a)));
    RunSnoc(setting, start, [Load(Some(a))], Ensure(true));
    RunSnoc(setting, start, [Load(Some(a)), Ensure(true)], Load(Some(b)));
    RunSnoc(setting, start, [Load(Some(a)), Ensure(true), Load(Some(b))], Ensure(false));
    RunSnoc(setting, start, [Load(Some(a)), Ensure(true), Load(Some(b)), Ensure(false)], Load(Some(a)));
    assert [] + [Load(Some(a))] == [Load(Some(a))];
    assert [Load(Some(a))] + [Ensure(true)] == [Load(Some(a)), Ensure(true)];
    assert [Load(Some(a)), Ensure(true)] + [Load(Some(b))] == [Load(Some(a)), Ensure(true), Load(Some(b))];
    assert [Load(Some(a)), Ensure(true), Load(Some(b))] + [Ensure(false)] == [Load(Some(a)), Ensure(true), Load(Some(b)), Ensure(false)];
    assert [Load(Some(a)), Ensure(true), Load(Some(b)), Ensure(false)] + [Load(Some(a))] ==
           [Load(Some(a)), Ensure(true), Load(Some(b)), Ensure(false), Load(Some(a))];
  }

  lemma {:induction false} RunSnoc(setting: Setting, w: World, events: seq<Event>, e: Event)
    ensures Run(setting, w, events + [e]) == Step(setting, Run(setting, w, events), e)
    ensures Run(setting, w, []) == w
  {
    assert (events + [e])[..|events|] == events;
  }

  // ---------------------------------------------------------------- the objects

  class ConfigurationManager {
    const setting: Setting
    var datalayer: Datalayer
    var digest: nat

    constructor (setting: Setting, initial: Datalayer)
      ensures this.setting == setting && State() == Cache(initial, NO_DIGEST)
    {
      this.setting, datalayer, digest := setting, initial, NO_DIGEST;
    }

    function State(): Cache
      reads this
    {
      Cache(datalayer, digest)
    }

    /** fetched is what the location yields: nothing when the request fails, the empty content when there is none. */
    method Load(fetched: Option<string>)
      modifies this
      ensures State() == LoadStep(setting, old(State()), fetched)
    {
      if fetched.None? {
        return;
      }
      var content := fetched.value;
      var state := setting.digest(content);
      if state != digest {
        var config := setting.parse(content);
        if config.None? {
          return;
        }
        datalayer := MapColumns(SetUser(setting, config.value));
        digest := state;
      }
    }

    /** Rebuilds the column map of every table. */
    method MapColumns(config: Datalayer) returns (r: Datalayer)
      ensures r == config.(tables := MapTables(config.tables))
    {
      var tables := config.tables;
      for i := 0 to |config.tables|
        invariant |tables| == |config.tables| && tables[i..] == config.tables[i..]
        invariant tables[..i] == MapTables(config.tables)[..i]
      {
        var mappings := config.tables[i].columnMappings;
        var columns: map<string, ColumnMapping> := map[];
        for j := 0 to |mappings|
          invariant columns == Columns(mappings[..j])
        {
          assert mappings[..j + 1][..j] == mappings[..j];
          columns := columns[mappings[j].fieldName := mappings[j]];
        }
        assert mappings[..|mappings|] == mappings;
        assert tables[i] == tables[i..][0];
        tables := tables[i := tables[i].(columns := columns)];
        assert MapTables(config.tables)[..i + 1] == MapTables(config.tables)[..i] + [MapTables(config.tables)[i]];
      }
      assert tables == MapTables(config.tables) by { assert tables[..|tables|] == tables; }
      r := config.(tables := tables);
    }
  }

  class SqlDB {
    const from: Datalayer
    var open: bool

    constructor (from: Datalayer)
      ensures this.from == from && open
    {
      this.from, open := from, true;
    }
  }

  class Layer {
    const cmgr: ConfigurationManager
    var db: SqlDB?
    var digest: nat

    constructor (cmgr: ConfigurationManager)
      ensures this.cmgr == cmgr && State() == Repo(None, NO_DIGEST)
    {
      this.cmgr, db, digest := cmgr, null, NO_DIGEST;
    }

    function State(): Repo
      reads this, db
    {
      Repo(if db == null then None else Some(Handle(db.from, db.open)), digest)
    }

    method EnsureConnection(connects: bool) returns (ok: bool)
      modifies this, db
      ensures (State(), ok) == EnsureStep(cmgr.State(), old(State()), connects)
      ensures ok <==> cmgr.digest == old(digest) || connects
      ensures cmgr.digest == old(digest) ==> db == old(db) && digest == old(digest) && (db != null ==> db.open == old(db.open))
      ensures cmgr.digest != old(digest) && connects ==>
                db != null && fresh(db) && db.open && db.from == cmgr.datalayer && digest == cmgr.digest
      ensures cmgr.digest != old(digest) && !connects ==> db == old(db) && digest == old(digest)
      ensures cmgr.digest != old(digest) && old(db) != null ==> !old(db).open
      ensures cmgr.State() == old(cmgr.State())
    {
      if cmgr.digest != digest {
        if db != null {
          db.open := false;
        }
        if !connects {
          return false;
        }
        db := new SqlDB(cmgr.datalayer);
        digest := cmgr.digest;
      }
      return true;
    }
  }
}
