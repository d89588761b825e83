/** Reconciling the live datasets with a new configuration. */
module Reconfiguration {
  import opened Basics
  import opened Sorting

  class MysqlDB {
    var open: bool

    constructor ()
      ensures open
    {
      open := true;
    }
  }

  class DatasetDefinition {
    const name: string
    /** The properties of the outgoing mapping, if there is one. */
    var outgoing: Option<seq<string>>

    constructor (name: string, outgoing: Option<seq<string>>)
      ensures this.name == name && this.outgoing == outgoing
    {
      this.name, this.outgoing := name, outgoing;
    }
  }

  class Dataset {
    var definition: DatasetDefinition
    var db: MysqlDB

    constructor (definition: DatasetDefinition, db: MysqlDB)
      ensures this.definition == definition && this.db == db
    {
      this.definition, this.db := definition, db;
    }
  }

  // ---------------------------------------------------------------- what a configuration asks for

  function NamesOf(config: seq<DatasetDefinition>): set<string> {
    set i | 0 <= i < |config| :: config[i].name
  }

  /** The last definition of a name wins. */
  function LastNamed(config: seq<DatasetDefinition>, name: string): (r: Option<DatasetDefinition>)
    ensures r.Some? ==> r.value.name == name && r.value in config
    ensures r.Some? <==> exists i :: 0 <= i < |config| && config[i].name == name
  {
    if config == [] then None
    else if config[|config| - 1].name == name then Some(config[|config| - 1])
    else LastNamed(config[..|config| - 1], name)
  }

  /** No later definition has the name. */
  lemma {:induction false} LastNamedIsLast(config: seq<DatasetDefinition>, name: string) returns (i: nat)
    ensures LastNamed(config, name).Some? ==>
              i < |config| && config[i] == LastNamed(config, name).value && forall j :: i < j < |config| ==> config[j].name != name
    ensures LastNamed(config, name).None? ==> forall j :: 0 <= j < |config| ==> config[j].name != name
  {
    i := 0;
    if config != [] {
      var init, n := config[..|config| - 1], |config| - 1;
      i := LastNamedIsLast(init, name);
      assert forall j :: 0 <= j < n ==> config[j] == init[j];
      if config[n].name == name { i := n; }
    }
  }

  lemma {:induction false} NamedIff(config: seq<DatasetDefinition>, name: string)
    ensures name in NamesOf(config) <==> LastNamed(config, name).Some?
  {
  }

  /** A layer built from a configuration alone. */
  function Fresh(config: seq<DatasetDefinition>): map<string, DatasetDefinition> {
    map k | k in NamesOf(config) :: LastNamed(config, k).value
  }

  /** Update what exists, remove what is gone, add what is new. */
  function Reconcile(held: map<string, DatasetDefinition>, config: seq<DatasetDefinition>): map<string, DatasetDefinition> {
    var existing := held.Keys * NamesOf(config);
    var kept := map k | k in existing :: LastNamed(config, k).value;
    AddNew(kept, existing, config)
  }

  function AddNew(m: map<string, DatasetDefinition>, existing: set<string>, config: seq<DatasetDefinition>): map<string, DatasetDefinition> {
    if config == [] then m
    else
      var m', d := AddNew(m, existing, config[..|config| - 1]), config[|config| - 1];
      if d.name in existing then m' else m'[d.name := d]
  }

  lemma {:induction false} AddNewAt(m: map<string, DatasetDefinition>, existing: set<string>, config: seq<DatasetDefinition>, k: string)
    requires m.Keys == existing
    ensures var r := AddNew(m, existing, config);
            if k in existing then k in r && r[k] == m[k]
            else (k in r <==> LastNamed(config, k).Some?) && (k in r ==> r[k] == LastNamed(config, k).value)
  {
    if config != [] { AddNewAt(m, existing, config[..|config| - 1], k); }
  }

  /** Reconciling forgets what was there. */
  lemma {:induction false} ReconcileIsFresh(held: map<string, DatasetDefinition>, config: seq<DatasetDefinition>)
    ensures Reconcile(held, config) == Fresh(config)
  {
    var existing := held.Keys * NamesOf(config);
    var kept := map k | k in existing :: LastNamed(config, k).value;
    forall k ensures k in NamesOf(config) <==> LastNamed(config, k).Some? {}
    forall k
      ensures k in Reconcile(held, config) <==> k in Fresh(config)
      ensures k in Fresh(config) ==> Reconcile(held, config)[k] == Fresh(config)[k]
    {
      AddNewAt(kept, existing, config, k);
    }
  }

  function ReconcileAll(held: map<string, DatasetDefinition>, configs: seq<seq<DatasetDefinition>>): map<string, DatasetDefinition> {
    if configs == [] then held else Reconcile(ReconcileAll(held, configs[..|configs| - 1]), configs[|configs| - 1])
  }

  /** After any number of reconfigurations only the last one shows. */
  lemma {:induction false} HistoryIsForgotten(held: map<string, DatasetDefinition>, configs: seq<seq<DatasetDefinition>>)
    requires configs != []
    ensures ReconcileAll(held, configs) == Fresh(configs[|configs| - 1])
  {
    ReconcileIsFresh(ReconcileAll(held, configs[..|configs| - 1]), configs[|configs| - 1]);
  }

  function LowerAll(properties: seq<string>): (r: seq<string>)
    ensures |r| == |properties| && forall i :: 0 <= i < |r| ==> r[i] == Lower(properties[i])
  {
    seq(|properties|, i requires 0 <= i < |properties| => Lower(properties[i]))
  }

  function Lowered(outgoing: Option<seq<string>>): Option<seq<string>> {
    match outgoing case None => None case Some(ps) => Some(LowerAll(ps))
  }

  // ---------------------------------------------------------------- sorted descriptions

  lemma TextLeqIsOrder()
    ensures TotalPreorder(TextLeq)
  {
    forall x, y ensures TextLeq(x, y) || TextLeq(y, x) { TextLessTotal(x, y); }
    forall x, y, z | TextLeq(x, y) && TextLeq(y, z) ensures TextLeq(x, z) {
      if x != y && y != z { TextLessTransitive(x, y, z); }
    }
  }

  /** A set of names has only one sorted listing, so the order in which a map is ranged over does not show. */
  lemma {:induction false} SortedListingIsUnique(a: seq<string>, b: seq<string>, names: set<string>)
    requires IsListing(a, names) && IsListing(b, names) && Sorted(a, TextLeq) && Sorted(b, TextLeq)
    ensures a == b
    decreases |a|
  {
    assert forall x :: x in b <==> x in a;
    assert a == [] ==> b == [] by { if b != [] { assert b[0] in a; } }
    if a != [] {
      assert a[0] in a && a[0] in b;
      assert b[0] in b && b[0] in a;
      var i :| 0 <= i < |b| && b[i] == a[0];
      var j :| 0 <= j < |a| && a[j] == b[0];
      TextLessTotal(a[0], b[0]);
      assert a[0] == b[0];
      ListingTail(a, names);
      ListingTail(b, names);
      SortedListingIsUnique(a[1..], b[1..], names - {a[0]});
      assert a == [a[0]] + a[1..] && b == [b[0]] + b[1..];
    }
  }

  lemma ListingTail(a: seq<string>, names: set<string>)
    requires a != [] && IsListing(a, names)
    ensures IsListing(a[1..], names - {a[0]})
  {
    forall x ensures x in a[1..] <==> x in names - {a[0]} {
      if x in names - {a[0]} { assert x in a; assert a == [a[0]] + a[1..]; }
      if x in a[1..] { assert x in a; }
    }
  }

  lemma {:induction false} SortKeepsListing(s: seq<string>, names: set<string>)
    requires IsListing(s, names)
    ensures IsListing(Sort(s, TextLeq), names) && Sorted(Sort(s, TextLeq), TextLeq)
  {
    TextLeqIsOrder();
    SortIsSorted(s, TextLeq);
    var r := Sort(s, TextLeq);
    forall x ensures x in r <==> x in names {
      assert x in r <==> x in multiset(r);
      assert x in s <==> x in multiset(s);
    }
    forall i, j | 0 <= i < j < |r| ensures r[i] != r[j] {
      if r[i] == r[j] {
        TwiceInMultiset(r, i, j);
        OnceInMultiset(s, r[i]);
      }
    }
  }

  lemma TwiceInMultiset(s: seq<string>, i: nat, j: nat)
    requires i < j < |s| && s[i] == s[j]
    ensures multiset(s)[s[i]] >= 2
  {
    assert s == s[..j] + s[j..];
    assert s[..j][i] in multiset(s[..j]) && s[j..][0] in multiset(s[j..]);
  }

  lemma {:induction false} OnceInMultiset(s: seq<string>, x: string)
    requires forall i, j :: 0 <= i < j < |s| ==> s[i] != s[j]
    ensures multiset(s)[x] <= 1
  {
    if s != [] {
      assert s == [s[0]] + s[1..];
      OnceInMultiset(s[1..], x);
      if s[0] == x { assert x !in s[1..]; }
    }
  }

  // ---------------------------------------------------------------- the layer

  class MysqlDatalayer {
    var db: MysqlDB?
    var datasets: map<string, Dataset>

    /** A dataset object belongs to one name only. */
    ghost predicate Valid()
      reads this, datasets.Values
    {
      && (forall k :: k in datasets ==> datasets[k].definition.name == k)
      && (forall k, l :: k in datasets && l in datasets && datasets[k] == datasets[l] ==> k == l)
    }

    ghost function View(): map<string, DatasetDefinition>
      reads this, datasets.Values
    {
      map k | k in datasets :: datasets[k].definition
    }

    constructor (db: MysqlDB)
      ensures Valid() && datasets == map[] && View() == map[] && this.db == db
    {
      this.db, datasets := db, map[];
    }

    method Lookup(name: string) returns (ds: Option<Dataset>)
      requires Valid()
      ensures ds.Some? <==> name in View()
      ensures ds.Some? ==> name in datasets && ds.value == datasets[name]
      ensures ds.Some? ==> ds.value.definition == View()[name] && ds.value.definition.name == name
    {
      if name in datasets {
        return Some(datasets[name]);
      }
      return None;
    }

    method DatasetDescriptions() returns (names: seq<string>)
      ensures IsListing(names, datasets.Keys) && Sorted(names, TextLeq)
    {
      names := [];
      var left := datasets.Keys;
      while left != {}
        invariant left <= datasets.Keys
        invariant IsListing(names, datasets.Keys - left)
        decreases left
      {
        var k :| k in left;
        names := names + [k];
        left := left - {k};
      }
      assert datasets.Keys - left == datasets.Keys;
      SortKeepsListing(names, datasets.Keys);
      names := Sort(names, TextLeq);
    }

    /** Points the datasets that stay at their new definition and at the new connection. */
    method UpdateExisting(config: seq<DatasetDefinition>, conn: MysqlDB) returns (existing: set<string>)
      requires Valid()
      modifies datasets.Values
      ensures existing == datasets.Keys * NamesOf(config)
      ensures forall k :: k in existing ==> datasets[k].definition == LastNamed(config, k).value && datasets[k].db == conn
      ensures forall k :: k in datasets && k !in existing ==>
                datasets[k].definition == old(datasets[k].definition) && datasets[k].db == old(datasets[k].db)
    {
      existing := {};
      var left := datasets.Keys;
      while left != {}
        invariant left <= datasets.Keys
        invariant existing == (datasets.Keys - left) * NamesOf(config)
        invariant forall k :: k in existing ==> datasets[k].definition == LastNamed(config, k).value && datasets[k].db == conn
        invariant forall k :: k in datasets && k !in existing ==>
                    datasets[k].definition == old(datasets[k].definition) && datasets[k].db == old(datasets[k].db)
        decreases left
      {
        var k :| k in left;
        var found := UpdateOne(k, datasets[k], config, conn);
        NamedIff(config, k);
        if found {
          existing := existing + {k};
        }
        left := left - {k};
      }
    }

    /** The inner loop: every definition of the name replaces the one before. */
    static method UpdateOne(k: string, v: Dataset, config: seq<DatasetDefinition>, conn: MysqlDB) returns (found: bool)
      modifies v
      ensures found == LastNamed(config, k).Some?
      ensures if found then v.definition == LastNamed(config, k).value && v.db == conn
              else v.definition == old(v.definition) && v.db == old(v.db)
    {
      found := false;
      for i := 0 to |config|
        invariant found == LastNamed(config[..i], k).Some?
        invariant if found then v.definition == LastNamed(config[..i], k).value && v.db == conn
                  else v.definition == old(v.definition) && v.db == old(v.db)
      {
        assert config[..i + 1][..i] == config[..i];
        var dsd := config[i];
        if k == dsd.name {
          found := true;
          v.definition := dsd;
          v.db := conn;
        }
      }
      assert config[..|config|] == config;
    }

    /** Removes the datasets that the configuration no longer names. */
    method RemoveMissing(existing: set<string>)
      requires existing <= datasets.Keys
      modifies this`datasets
      ensures datasets == map k | k in old(datasets) && k in existing :: old(datasets)[k]
    {
      var left := datasets.Keys;
      ghost var all := datasets;
      while left != {}
        invariant left <= all.Keys
        invariant datasets == map k | k in all && (k in existing || k in left) :: all[k]
        decreases left
      {
        var k :| k in left;
        if k !in existing {
          datasets := datasets - {k};
        }
        left := left - {k};
      }
    }

    /** Adds a dataset for every definition of a name that did not exist; a repeated name replaces the one before. */
    method AddMissing(config: seq<DatasetDefinition>, existing: set<string>, conn: MysqlDB)
      requires datasets.Keys == existing
      modifies this`datasets
      ensures datasets.Keys == existing + NamesOf(config)
      ensures forall k :: k in existing ==> datasets[k] == old(datasets)[k]
      ensures forall k :: k in datasets && k !in existing ==>
                fresh(datasets[k]) && datasets[k].definition == LastNamed(config, k).value && datasets[k].db == conn
    {
      ghost var before := datasets;
      for i := 0 to |config|
        invariant datasets.Keys == existing + NamesOf(config[..i])
        invariant forall k :: k in existing ==> datasets[k] == before[k]
        invariant forall k :: k in datasets && k !in existing ==>
                    LastNamed(config[..i], k).Some? && fresh(datasets[k]) &&
                    datasets[k].definition == LastNamed(config[..i], k).value && datasets[k].db == conn
      {
        var dsd := config[i];
        assert config[..i + 1][..i] == config[..i];
        assert NamesOf(config[..i + 1]) == NamesOf(config[..i]) + {dsd.name} by { assert config[..i + 1][i] == dsd; NamesSnoc(config, i); }
        if dsd.name !in existing {
          var ds := new Dataset(dsd, conn);
          datasets := datasets[dsd.name := ds];
        }
      }
      assert config[..|config|] == config;
    }

    /** Lower-cases the properties of every dataset's outgoing mapping, in place. */
    method LowerProperties()
      requires Valid()
      modifies set k | k in datasets :: datasets[k].definition
      ensures forall k :: k in datasets ==> datasets[k].definition.outgoing == Lowered(old(datasets[k].definition.outgoing))
    {
      var left := datasets.Keys;
      while left != {}
        invariant left <= datasets.Keys
        invariant forall k :: k in left ==> datasets[k].definition.outgoing == old(datasets[k].definition.outgoing)
        invariant forall k :: k in datasets && k !in left ==> datasets[k].definition.outgoing == Lowered(old(datasets[k].definition.outgoing))
        decreases left
      {
        var k :| k in left;
        var d := datasets[k].definition;
        LowerOne(d);
        left := left - {k};
      }
    }

    /** The same, seen from the definitions of the configuration. */
    method LowerChosen(ghost config: seq<DatasetDefinition>)
      requires Valid() && forall k :: k in datasets ==> datasets[k].definition in config
      modifies config
      ensures Valid() && View() == old(View())
      ensures forall d :: d in config ==> d.outgoing == if d in View().Values then Lowered(old(d.outgoing)) else old(d.outgoing)
    {
      hide Lowered;
      LowerProperties();
      assert View() == old(View());
      forall d | d in config
        ensures d.outgoing == if d in View().Values then Lowered(old(d.outgoing)) else old(d.outgoing)
      {
        if k :| k in datasets && datasets[k].definition == d {
          assert View()[k] == d;
        }
      }
    }

    static method LowerOne(d: DatasetDefinition)
      modifies d
      ensures d.outgoing == Lowered(old(d.outgoing))
    {
      hide Lower;
      hide LowerAll;
      if d.outgoing.Some? {
        var ps := d.outgoing.value;
        LowerEnds(ps);
        for i := 0 to |ps|
          invariant d.outgoing == Some(LowerAll(ps[..i]) + ps[i..])
        {
          var now := d.outgoing.value;
          LowerStep(ps, i);
          d.outgoing := Some(now[i := Lower(now[i])]);
        }
      }
    }

    method UpdateConfiguration(config: seq<DatasetDefinition>, closes: bool, opens: bool) returns (ok: bool)
      requires Valid() && db != null
      modifies this, db, datasets.Values, config
      ensures ok == (closes && opens)
      ensures !closes ==> db == old(db) && datasets == old(datasets) && View() == old(View())
      ensures closes && !opens ==> db == null && datasets == old(datasets) && View() == old(View())
      ensures ok ==> Valid() && View() == Reconcile(old(View()), config)
      ensures ok ==> db != null && fresh(db) && db.open && !old(db).open && forall k :: k in datasets ==> datasets[k].db == db
      ensures ok ==> forall k :: k in datasets ==> if k in old(datasets) then datasets[k] == old(datasets)[k] else fresh(datasets[k])
      ensures forall d :: d in config ==> d.outgoing == if ok && d in View().Values then Lowered(old(d.outgoing)) else old(d.outgoing)
    {
      hide Reconcile;
      hide Lowered;
      hide Fresh;
      hide NamesOf;
      hide LastNamed;
      if !closes {
        return false;
      }
      db.open := false;
      if !opens {
        db := null;
        return false;
      }
      var conn := new MysqlDB();
      db := conn;
      assert View() == old(View());
      Adopt(config, conn);
      LowerChosen(config);
      return true;
    }

    lemma {:induction false} ViewIsFresh(config: seq<DatasetDefinition>)
      requires datasets.Keys == NamesOf(config)
      requires forall k :: k in datasets ==> LastNamed(config, k).Some? && datasets[k].definition == LastNamed(config, k).value
      ensures View() == Fresh(config) && Valid()
    {
      hide NamesOf;
      hide LastNamed;
      assert View().Keys == Fresh(config).Keys;
    }

    /** The three loops that update, remove and add datasets. */
    method Adopt(config: seq<DatasetDefinition>, conn: MysqlDB)
      requires Valid() && db == conn
      modifies this`datasets, datasets.Values
      ensures Valid() && View() == Reconcile(old(View()), config)
      ensures forall k :: k in datasets ==> datasets[k].db == conn && datasets[k].definition in config
      ensures forall k :: k in datasets ==> if k in old(datasets) then datasets[k] == old(datasets)[k] else fresh(datasets[k])
    {
      ReconcileIsFresh(View(), config);
      hide Reconcile;
      var existing := UpdateExisting(config, conn);
      RemoveMissing(existing);
      AddMissing(config, existing, conn);
      forall k | k in datasets ensures LastNamed(config, k).Some? && datasets[k].definition == LastNamed(config, k).value && datasets[k].db == conn {}
      ViewIsFresh(config);
    }
  }

  /** A new layer is an empty one that is configured at once, on a second connection. */
  method NewMysqlDataLayer(config: seq<DatasetDefinition>, connects: bool, closes: bool, opens: bool) returns (r: Option<MysqlDatalayer>)
    modifies config
    ensures r.Some? <==> connects && closes && opens
    ensures r.Some? ==> fresh(r.value) && r.value.Valid() && r.value.View() == Fresh(config)
    ensures r.Some? ==> r.value.db != null && r.value.db.open && forall k :: k in r.value.datasets ==> r.value.datasets[k].db == r.value.db
  {
    if !connects {
      return None;
    }
    var db := new MysqlDB();
    var l := new MysqlDatalayer(db);
    ReconcileIsFresh(map[], config);
    var ok := l.UpdateConfiguration(config, closes, opens);
    return if ok then Some(l) else None;
  }

  lemma LowerStep(ps: seq<string>, i: nat)
    requires i < |ps|
    ensures var now := LowerAll(ps[..i]) + ps[i..];
            now[i] == ps[i] && now[i := Lower(now[i])] == LowerAll(ps[..i + 1]) + ps[i + 1..]
  {
    hide Lower;
  }

  lemma LowerEnds(ps: seq<string>)
    ensures LowerAll(ps[..0]) + ps[0..] == ps && LowerAll(ps[..|ps|]) + ps[|ps|..] == LowerAll(ps)
  {
    hide Lower;
  }

  lemma NamesSnoc(config: seq<DatasetDefinition>, i: nat)
    requires i < |config|
    ensures NamesOf(config[..i + 1]) == NamesOf(config[..i]) + {config[i].name}
  {
    forall n ensures n in NamesOf(config[..i + 1]) <==> n in NamesOf(config[..i]) + {config[i].name} {
      if n in NamesOf(config[..i]) {
        var j :| 0 <= j < i && config[..i][j].name == n;
        assert config[..i + 1][j].name == n;
      }
      if n == config[i].name { assert config[..i + 1][i].name == n; }
    }
  }
}
