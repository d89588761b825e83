/** Legacy posting: a stream is cut into chunks, each chunk is one transaction. */
module LegacyPost {
  import opened Basics
  import opened Sorting

  datatype Field = Field(name: string, sortOrder: int)

  /** An entity, and the order in which its properties are ranged over when they are stripped. */
  datatype Entity<V> = Entity(id: string, deleted: bool, props: map<string, V>, order: seq<string>)

  const BATCH_SIZE := 1000

  // ---------------------------------------------------------------- arguments

  /** Position of the first colon. */
  function Colon(s: string): Option<nat> {
    if s == "" then None
    else if s[0] == ':' then Some(0)
    else match Colon(s[1..]) case None => None case Some(n) => Some(n + 1)
  }

  lemma {:induction false} ColonInside(s: string)
    ensures Colon(s).Some? ==> Colon(s).value < |s|
  {
    if s != "" && s[0] != ':' { ColonInside(s[1..]); }
  }

  /** The second part of a name split after its colons; it keeps a second colon, and there must be a first. */
  function Strip(name: string): string {
    match Colon(name)
    case None => name
    case Some(n) =>
      ColonInside(name);
      var rest := name[n + 1..];
      match Colon(rest)
      case None => rest
      case Some(m) =>
        ColonInside(rest);
        rest[..m + 1]
  }

  /** What follows the first colon of a name, up to and including a second one. */
  ghost predicate IsSecondPart(p: string, name: string) {
    exists first: string :: ':' !in first && first + ":" <= p && UpToColon(p[|first| + 1..], name)
  }

  ghost predicate UpToColon(rest: string, name: string) {
    (':' !in rest && name == rest) || exists part: string :: ':' !in part && part + ":" <= rest && name == part + ":"
  }

  lemma {:induction false} ColonIsFirst(s: string)
    ensures Colon(s).None? <==> ':' !in s
    ensures Colon(s).Some? ==> var n := Colon(s).value; n < |s| && s[n] == ':' && ':' !in s[..n]
  {
    if s != "" && s[0] != ':' {
      ColonIsFirst(s[1..]);
      assert s == [s[0]] + s[1..];
      if Colon(s).Some? {
        var n := Colon(s).value;
        assert s[..n] == [s[0]] + s[1..][..n - 1];
      }
    }
  }

  lemma {:induction false} ColonAfter(s: string, part: string)
    requires ':' !in part && part + ":" <= s
    ensures Colon(s) == Some(|part|)
  {
    ColonIsFirst(s);
    hide Colon;
    var n := |part|;
    assert s[n] == (part + ":")[n] == ':' && s[..n] == part;
    var m := Colon(s).value;
    assert forall i :: 0 <= i < m ==> s[i] != ':' by { assert forall i :: 0 <= i < m ==> s[..m][i] == s[i]; }
    assert forall i :: 0 <= i < n ==> s[i] != ':' by { assert forall i :: 0 <= i < n ==> part[i] == s[i]; }
  }

  lemma {:induction false} UpToColonExact(rest: string, name: string)
    ensures UpToColon(rest, name) <==> name == match Colon(rest) case None => rest case Some(m) => if m < |rest| then rest[..m + 1] else rest
  {
    ColonIsFirst(rest);
    forall part: string | ':' !in part && part + ":" <= rest ensures Colon(rest) == Some(|part|) { ColonAfter(rest, part); }
    hide Colon;
    if Colon(rest).Some? {
      var part := rest[..Colon(rest).value];
      assert rest[..|part| + 1] == part + ":";
    }
  }

  /** What follows the first colon is the only candidate. */
  lemma {:induction false} SecondPartIs(p: string, rest: string, name: string)
    requires Colon(p).Some? && Colon(p).value < |p| && rest == p[Colon(p).value + 1..]
    ensures IsSecondPart(p, name) <==> UpToColon(rest, name)
  {
    ColonIsFirst(p);
    forall first: string | ':' !in first && first + ":" <= p ensures Colon(p) == Some(|first|) { ColonAfter(p, first); }
    hide Colon;
    hide UpToColon;
    var first := p[..Colon(p).value];
    assert p[..|first| + 1] == first + ":";
  }

  /** Stripping takes the second part. */
  lemma {:induction false} StripExact(p: string, name: string)
    requires Colon(p).Some?
    ensures Strip(p) == name <==> IsSecondPart(p, name)
  {
    ColonInside(p);
    var rest := p[Colon(p).value + 1..];
    ColonInside(rest);
    hide IsSecondPart;
    hide UpToColon;
    SecondPartIs(p, rest, name);
    UpToColonExact(rest, name);
  }

  /** The argument of a name: the value of the property ranged over last whose second part is the name, or none. */
  ghost predicate IsArgument<V>(e: Entity<V>, name: string, arg: Option<V>) {
    match arg
    case None => forall p :: p in e.props ==> !IsSecondPart(p, name)
    case Some(v) =>
      exists n :: 0 <= n < |e.order| && IsSecondPart(e.order[n], name) && e.order[n] in e.props && e.props[e.order[n]] == v &&
                  forall m :: n < m < |e.order| ==> !IsSecondPart(e.order[m], name)
  }

  lemma {:induction false} LastStrippedAt(names: seq<string>, name: string) returns (n: nat)
    ensures LastStripped(names, name).Some? ==>
              n < |names| && names[n] == LastStripped(names, name).value && forall m :: n < m < |names| ==> Strip(names[m]) != name
  {
    hide Strip;
    n := 0;
    if names != [] {
      n := LastStrippedAt(Init(names), name);
      if Strip(Last(names)) == name { n := |names| - 1; }
    }
  }

  /** Every property name has a colon; without one the second part does not exist. */
  ghost predicate Strippable<V>(e: Entity<V>) {
    IsListing(e.order, e.props.Keys) && forall p :: p in e.props ==> Colon(p).Some?
  }

  /** The last name of the list that strips to this one. */
  function LastStripped(names: seq<string>, name: string): (r: Option<string>)
    ensures r.Some? ==> r.value in names && Strip(r.value) == name
    ensures r.None? ==> forall p :: p in names ==> Strip(p) != name
  {
    if names == [] then None
    else if Strip(Last(names)) == name then Some(Last(names))
    else
      InitLast(names);
      LastStripped(Init(names), name)
  }

  /** The value under the stripped name: of the properties that strip to it, the one ranged over last. */
  function Argument<V>(e: Entity<V>, name: string): Option<V> {
    match LastStripped(e.order, name)
    case None => None
    case Some(p) => if p in e.props then Some(e.props[p]) else None
  }

  /** There is an argument iff some property strips to the name, and its value is that of such a property; if there is only one, the order does not show. */
  lemma {:induction false} ArgumentIsStripped<V>(e: Entity<V>, name: string)
    requires Strippable(e)
    ensures Argument(e, name).None? <==> forall p :: p in e.props ==> Strip(p) != name
    ensures Argument(e, name).Some? ==> exists p :: p in e.props && Strip(p) == name && Argument(e, name) == Some(e.props[p])
    ensures forall p :: p in e.props && Strip(p) == name && (forall q :: q in e.props && Strip(q) == name ==> q == p) ==>
              Argument(e, name) == Some(e.props[p])
  {
    hide Strip;
    hide Colon;
    assert forall p :: p in e.order <==> p in e.props;
  }

  lemma ArgumentExact<V>(e: Entity<V>, name: string)
    requires Strippable(e)
    ensures IsArgument(e, name, Argument(e, name))
  {
    forall p | p in e.props ensures Strip(p) == name <==> IsSecondPart(p, name) { StripExact(p, name); }
    assert forall p :: p in e.order <==> p in e.props;
    ArgumentIsStripped(e, name);
    var n := LastStrippedAt(e.order, name);
    hide Strip;
    hide IsSecondPart;
    hide Colon;
    if Argument(e, name).Some? {
      assert e.order[n] in e.order;
      forall m | n < m < |e.order| ensures !IsSecondPart(e.order[m], name) { assert e.order[m] in e.order; }
    }
  }

  function Arguments<V>(fields: seq<Field>, e: Entity<V>): (r: seq<Option<V>>)
    ensures |r| == |fields|
  {
    seq(|fields|, i requires 0 <= i < |fields| => Argument(e, fields[i].name))
  }

  /** StripProps: a later property replaces an earlier one of the same stripped name. */
  method StripProps<V>(e: Entity<V>) returns (r: map<string, V>)
    requires Strippable(e)
    ensures forall name :: (if name in r then Some(r[name]) else None) == Argument(e, name)
  {
    hide Strip;
    r := map[];
    for n := 0 to |e.order|
      invariant forall name :: name in r <==> LastStripped(e.order[..n], name).Some?
      invariant forall name :: name in r ==>
                  LastStripped(e.order[..n], name).value in e.props && r[name] == e.props[LastStripped(e.order[..n], name).value]
    {
      var p := e.order[n];
      assert p in e.order;
      assert Init(e.order[..n + 1]) == e.order[..n] && Last(e.order[..n + 1]) == p;
      r := r[Strip(p) := e.props[p]];
    }
    assert e.order[..|e.order|] == e.order;
  }

  // ---------------------------------------------------------------- field order

  predicate NotAfter(a: Field, b: Field) { a.sortOrder <= b.sortOrder }

  function Zeros(fields: seq<Field>): nat {
    if fields == [] then 0 else Zeros(Init(fields)) + if Last(fields).sortOrder == 0 then 1 else 0
  }

  /** Fields are sorted unless two or more of them have no order. */
  function Arrange(fields: seq<Field>): (r: seq<Field>)
    ensures |r| == |fields|
  {
    if Zeros(fields) >= 2 then fields else Sort(fields, NotAfter)
  }

  lemma NoFields()
    ensures Arrange([]) == []
  {
  }

  lemma NotAfterIsOrder()
    ensures TotalPreorder(NotAfter)
  {
  }

  /** The fields without an order are those alike one of them. */
  lemma {:induction false} ZerosAreAlike(fields: seq<Field>, zero: Field)
    requires zero.sortOrder == 0
    ensures Zeros(fields) == |Alike(fields, zero, NotAfter)|
  {
    if fields != [] { ZerosAreAlike(Init(fields), zero); }
  }

  /** Two or more fields have no order. */
  ghost predicate Unordered(fields: seq<Field>) {
    exists i, j :: 0 <= i < j < |fields| && fields[i].sortOrder == 0 && fields[j].sortOrder == 0
  }

  lemma {:induction false} ZerosFound(fields: seq<Field>) returns (i: nat)
    ensures Zeros(fields) == 0 <==> forall j :: 0 <= j < |fields| ==> fields[j].sortOrder != 0
    ensures Zeros(fields) > 0 ==> i < |fields| && fields[i].sortOrder == 0
  {
    i := 0;
    if fields != [] {
      i := ZerosFound(Init(fields));
      InitLast(fields);
      if Last(fields).sortOrder == 0 { i := |fields| - 1; }
    }
  }

  lemma {:induction false} UnorderedIff(fields: seq<Field>)
    ensures Zeros(fields) >= 2 <==> Unordered(fields)
  {
    if fields != [] {
      var init, n := Init(fields), |fields| - 1;
      UnorderedIff(init);
      var i := ZerosFound(init);
      assert forall j :: 0 <= j < n ==> init[j] == fields[j];
      if Unordered(init) {
        var a, b :| 0 <= a < b < |init| && init[a].sortOrder == 0 && init[b].sortOrder == 0;
        assert fields[a].sortOrder == 0 && fields[b].sortOrder == 0;
      }
      if Zeros(init) > 0 && fields[n].sortOrder == 0 { assert fields[i].sortOrder == 0; }
      if Unordered(fields) {
        var a, b :| 0 <= a < b < |fields| && fields[a].sortOrder == 0 && fields[b].sortOrder == 0;
        assert init[a].sortOrder == 0;
        assert b < n ==> init[b].sortOrder == 0;
      }
    }
  }

  /** The first chunk settles the order of the fields: a stable ascending permutation, or the configured order. */
  lemma {:induction false} ArrangeIsSettled(fields: seq<Field>, y: Field)
    ensures Arrange(Arrange(fields)) == Arrange(fields)
    ensures multiset(Arrange(fields)) == multiset(fields)
    ensures Alike(Arrange(fields), y, NotAfter) == Alike(fields, y, NotAfter)
    ensures if Unordered(fields) then Arrange(fields) == fields
            else forall i, j :: 0 <= i < j < |fields| ==> Arrange(fields)[i].sortOrder <= Arrange(fields)[j].sortOrder
  {
    NotAfterIsOrder();
    UnorderedIff(fields);
    if Zeros(fields) < 2 {
      SortIsSorted(fields, NotAfter);
      SortIsStable(fields, NotAfter, y);
      var zero := Field("", 0);
      SortIsStable(fields, NotAfter, zero);
      ZerosAreAlike(fields, zero);
      ZerosAreAlike(Sort(fields, NotAfter), zero);
      SortOfSorted(Sort(fields, NotAfter), NotAfter);
    }
  }

  // ---------------------------------------------------------------- chunks

  function Chunks<T>(s: seq<T>): seq<seq<T>> {
    if s == [] then [] else if |s| <= BATCH_SIZE then [s] else [s[..BATCH_SIZE]] + Chunks(s[BATCH_SIZE..])
  }

  /** The chunks are the stream; all but the last are full and none is empty. */
  lemma {:induction false} ChunksCoverStream<T>(s: seq<T>)
    ensures Flatten(Chunks(s)) == s
    ensures forall i :: 0 <= i < |Chunks(s)| ==> 1 <= |Chunks(s)[i]| <= BATCH_SIZE && (i < |Chunks(s)| - 1 ==> |Chunks(s)[i]| == BATCH_SIZE)
    decreases |s|
  {
    if |s| > BATCH_SIZE {
      ChunksCoverStream(s[BATCH_SIZE..]);
      FlattenCons(s[..BATCH_SIZE], Chunks(s[BATCH_SIZE..]));
      assert Chunks(s[BATCH_SIZE..]) != [];
    } else if s != [] {
      FlattenCons(s, []);
      assert [s] + [] == [s];
    }
  }

  lemma {:induction false} ChunksStep<T>(c: seq<T>, rest: seq<T>)
    requires |c| == BATCH_SIZE
    ensures Chunks(c + rest) == [c] + Chunks(rest)
  {
    var s := c + rest;
    assert s[..BATCH_SIZE] == c && s[BATCH_SIZE..] == rest;
    if rest == [] {
      assert s == c && [c] + Chunks(rest) == [c];
    }
  }

  /** Full chunks at the front of a stream are chunks of it. */
  lemma {:induction false} ChunksPrefix<T>(full: seq<seq<T>>, left: seq<T>)
    requires forall c :: c in full ==> |c| == BATCH_SIZE
    ensures Chunks(Flatten(full) + left) == full + Chunks(left)
    decreases |full|
  {
    hide Chunks;
    if full == [] {
      assert Flatten(full) + left == left && full + Chunks(left) == Chunks(left);
    } else {
      var c, more := full[0], full[1..];
      assert full == [c] + more && c in full;
      FlattenCons(c, more);
      hide Flatten;
      ChunksPrefix(more, left);
      ChunksStep(c, Flatten(more) + left);
      assert Flatten(full) + left == c + (Flatten(more) + left);
      assert full + Chunks(left) == [c] + (more + Chunks(left));
    }
  }

  /** Full chunks followed by a shorter rest are the chunks of what they make up. */
  lemma {:induction false} ChunksOf<T>(full: seq<seq<T>>, rest: seq<T>)
    requires (forall c :: c in full ==> |c| == BATCH_SIZE) && |rest| < BATCH_SIZE
    ensures Chunks(Flatten(full) + rest) == full + if rest == [] then [] else [rest]
  {
    hide Flatten;
    ChunksPrefix(full, rest);
  }

  // ---------------------------------------------------------------- posting

  /**
   * Whether the dataset has a table definition with a query, the configured statements on a database
   * state, whether the n-th chunk has a connection, and whether it can open its transaction.
   */
  datatype Server<!D, !V> = Server(
    defined: bool,
    upsert: (D, seq<Option<V>>) -> Option<D>,
    remove: (D, Option<V>) -> Option<D>,
    connects: nat -> bool,
    opens: nat -> bool)

  ghost function ApplyOne<D, V>(server: Server<D, V>, fields: seq<Field>, d: D, e: Entity<V>): Option<D>
  {
    var args := Arguments(fields, e);
    if fields == [] then None
    else if !e.deleted then server.upsert(d, args) else server.remove(d, args[0])
  }

  /** Sequential application: the one-pass meaning of a stream. */
  ghost function ApplySeq<D, V>(server: Server<D, V>, fields: seq<Field>, d: D, es: seq<Entity<V>>): Option<D>
  {
    if es == [] then Some(d)
    else match ApplySeq(server, fields, d, Init(es))
      case None => None
      case Some(d') => ApplyOne(server, fields, d', Last(es))
  }

  /** Posting the n-th chunk needs a definition, a query, at least one field, a connection and a transaction. */
  predicate CanPost<D, V>(server: Server<D, V>, fields: seq<Field>, n: nat) {
    server.defined && fields != [] && server.connects(n) && server.opens(n)
  }

  /** Chunk after chunk, each in its own transaction, up to the first that fails. */
  ghost function PostAll<D, V>(server: Server<D, V>, fields: seq<Field>, d: D, chunks: seq<seq<Entity<V>>>, n: nat): (D, bool)
  {
    if chunks == [] then (d, true)
    else
      var (d', ok) := PostAll(server, fields, d, Init(chunks), n);
      if !ok || !CanPost(server, fields, n + |chunks| - 1) then (d', false)
      else match ApplySeq(server, fields, d', Last(chunks))
        case None => (d', false)
        case Some(d'') => (d'', true)
  }

  lemma {:induction false} ApplySeqConcat<D, V>(server: Server<D, V>, fields: seq<Field>, d: D, a: seq<Entity<V>>, b: seq<Entity<V>>)
    ensures ApplySeq(server, fields, d, a + b) ==
            match ApplySeq(server, fields, d, a) case None => None case Some(d') => ApplySeq(server, fields, d', b)
  {
    if b == [] {
      assert a + b == a;
    } else {
      assert Init(a + b) == a + Init(b);
      ApplySeqConcat(server, fields, d, a, Init(b));
    }
  }

  /**
   * When every chunk succeeds the result is one pass over the stream; when one fails the
   * database holds one pass over exactly the chunks before it.
   */
  lemma {:induction false} PostingIsOnePass<D, V>(server: Server<D, V>, fields: seq<Field>, d: D, chunks: seq<seq<Entity<V>>>, n: nat)
    returns (k: nat)
    ensures k <= |chunks|
    ensures var (d', ok) := PostAll(server, fields, d, chunks, n);
            && ApplySeq(server, fields, d, Flatten(chunks[..k])) == Some(d')
            && (ok <==> k == |chunks|)
            && (forall i :: n <= i < n + k ==> CanPost(server, fields, i))
            && (!ok ==> !CanPost(server, fields, n + k) || ApplySeq(server, fields, d', chunks[k]).None?)
  {
    k := 0;
    if chunks == [] {
      assert chunks[..0] == [];
    } else {
      k := PostingIsOnePass(server, fields, d, Init(chunks), n);
      assert Init(chunks)[..k] == chunks[..k];
      var (d', ok) := PostAll(server, fields, d, Init(chunks), n);
      if ok {
        assert chunks[..|chunks| - 1] == Init(chunks);
        if PostAll(server, fields, d, chunks, n).1 {
          ApplySeqConcat(server, fields, d, Flatten(Init(chunks)), Last(chunks));
          k := |chunks|;
          assert chunks[..k] == chunks;
        }
      }
    }
  }

  lemma {:induction false} PostAllSnoc<D, V>(server: Server<D, V>, fields: seq<Field>, d: D, chunks: seq<seq<Entity<V>>>, chunk: seq<Entity<V>>, n: nat)
    ensures PostAll(server, fields, d, chunks + [chunk], n) ==
            var (d', ok) := PostAll(server, fields, d, chunks, n);
            if !ok || !CanPost(server, fields, n + |chunks|) then (d', false)
            else match ApplySeq(server, fields, d', chunk) case None => (d', false) case Some(d'') => (d'', true)
  {
    assert Init(chunks + [chunk]) == chunks;
  }

  /** A failed chunk stays failed. */
  lemma {:induction false} FailedStays<D, V>(server: Server<D, V>, fields: seq<Field>, d: D, chunks: seq<seq<Entity<V>>>,
                                             more: seq<seq<Entity<V>>>, n: nat)
    requires !PostAll(server, fields, d, chunks, n).1
    ensures PostAll(server, fields, d, chunks + more, n) == PostAll(server, fields, d, chunks, n)
    decreases |more|
  {
    if more == [] {
      assert chunks + more == chunks;
    } else {
      assert Init(chunks + more) == chunks + Init(more);
      FailedStays(server, fields, d, chunks, Init(more), n);
    }
  }

  lemma {:induction false} ApplyNext<D, V>(server: Server<D, V>, fields: seq<Field>, d: D, es: seq<Entity<V>>, n: nat)
    requires n < |es|
    ensures ApplySeq(server, fields, d, []) == Some(d)
    ensures ApplySeq(server, fields, d, es[..n + 1]) ==
            match ApplySeq(server, fields, d, es[..n]) case None => None case Some(d') => ApplyOne(server, fields, d', es[n])
  {
    assert Init(es[..n + 1]) == es[..n];
  }

  lemma {:induction false} NothingApplied<D, V>(server: Server<D, V>, fields: seq<Field>, d: D)
    ensures ApplySeq(server, fields, d, []) == Some(d)
  {
  }

  /** One chunk, posted on its own. */
  lemma {:induction false} PostOne<D, V>(server: Server<D, V>, fields: seq<Field>, d: D, es: seq<Entity<V>>, n: nat)
    ensures ApplySeq(server, fields, d, []) == Some(d)
    ensures PostAll(server, fields, d, [es], n) ==
            if !CanPost(server, fields, n) then (d, false)
            else match ApplySeq(server, fields, d, es) case None => (d, false) case Some(d') => (d', true)
  {
    assert Init([es]) == [];
  }

  // ---------------------------------------------------------------- which statements run

  ghost predicate AreArguments<V>(fields: seq<Field>, e: Entity<V>, args: seq<Option<V>>) {
    |args| == |fields| && forall i :: 0 <= i < |fields| ==> IsArgument(e, fields[i].name, args[i])
  }

  /** An entity that is not deleted runs the query with all its arguments, a deleted one the DELETE with the first. */
  ghost predicate IsStep<D, V(!new)>(server: Server<D, V>, fields: seq<Field>, e: Entity<V>, d: D, r: Option<D>) {
    exists args :: AreArguments(fields, e, args) && |args| > 0 && if e.deleted then r == server.remove(d, args[0]) else r == server.upsert(d, args)
  }

  /** The states that the entities go through, one step for each; the last one tried may fail. */
  ghost predicate GoesThrough<D, V(!new)>(server: Server<D, V>, fields: seq<Field>, es: seq<Entity<V>>, states: seq<D>, r: Option<D>) {
    && 0 < |states| <= |es| + 1
    && (forall i :: 0 <= i < |states| - 1 ==> IsStep(server, fields, es[i], states[i], Some(states[i + 1])))
    && match r
       case Some(d) => |states| == |es| + 1 && states[|es|] == d
       case None => |states| <= |es| && IsStep(server, fields, es[|states| - 1], states[|states| - 1], None)
  }

  /** From d the entities lead to r, statement by statement; none when a statement fails. */
  ghost predicate LeadsTo<D(!new), V(!new)>(server: Server<D, V>, fields: seq<Field>, es: seq<Entity<V>>, d: D, r: Option<D>) {
    exists states: seq<D> :: GoesThrough(server, fields, es, states, r) && states[0] == d
  }

  lemma StepExact<D, V(!new)>(server: Server<D, V>, fields: seq<Field>, e: Entity<V>, d: D)
    requires fields != [] && Strippable(e)
    ensures IsStep(server, fields, e, d, ApplyOne(server, fields, d, e))
  {
    hide Argument;
    hide IsArgument;
    hide Strippable;
    var args := Arguments(fields, e);
    forall i | 0 <= i < |fields| ensures IsArgument(e, fields[i].name, args[i]) { ArgumentExact(e, fields[i].name); }
    assert AreArguments(fields, e, args);
  }

  /** Sequential application is such a run of statements. */
  lemma {:induction false} SeqStates<D, V(!new)>(server: Server<D, V>, fields: seq<Field>, d: D, es: seq<Entity<V>>) returns (states: seq<D>)
    requires (fields != [] || es == []) && forall i :: 0 <= i < |es| ==> Strippable(es[i])
    ensures GoesThrough(server, fields, es, states, ApplySeq(server, fields, d, es)) && states[0] == d
  {
    hide IsStep;
    hide ApplyOne;
    hide Strippable;
    if es == [] {
      states := [d];
    } else {
      var init, n := Init(es), |es| - 1;
      states := SeqStates(server, fields, d, init);
      assert forall i :: 0 <= i < n ==> init[i] == es[i];
      match ApplySeq(server, fields, d, init) {
        case None =>
        case Some(d') =>
          StepExact(server, fields, es[n], d');
          match ApplyOne(server, fields, d', es[n]) {
            case None =>
            case Some(d'') =>
              var longer := states + [d''];
              assert forall i :: 0 <= i < |states| ==> longer[i] == states[i];
              states := longer;
          }
      }
    }
  }

  lemma {:induction false} SeqLeadsTo<D(!new), V(!new)>(server: Server<D, V>, fields: seq<Field>, d: D, es: seq<Entity<V>>)
    requires (fields != [] || es == []) && forall e :: e in es ==> Strippable(e)
    ensures LeadsTo(server, fields, es, d, ApplySeq(server, fields, d, es))
  {
    hide GoesThrough;
    hide ApplySeq;
    hide Strippable;
    var states := SeqStates(server, fields, d, es);
  }

  // ---------------------------------------------------------------- where the chunks lie

  function Min(a: nat, b: nat): nat { if a < b then a else b }

  lemma ThousandLater<T>(s: seq<T>, k: nat)
    requires 1000 < |s| && 0 < k
    ensures s[..1000] + s[1000..][..Min(1000 * (k - 1), |s| - 1000)] == s[..Min(1000 * k, |s|)]
    ensures 1000 * k < |s| ==> s[1000..][1000 * (k - 1)..Min(1000 * k, |s| - 1000)] == s[1000 * k..Min(1000 * (k + 1), |s|)]
  {
  }

  /** The k-th chunk is the k-th thousand of the stream, and the chunks before it are what comes before. */
  lemma {:induction false} ChunkIsThousand<T>(s: seq<T>, k: nat)
    requires k <= |Chunks(s)|
    ensures Flatten(Chunks(s)[..k]) == s[..Min(1000 * k, |s|)]
    ensures k < |Chunks(s)| ==> 1000 * k < |s| && Chunks(s)[k] == s[1000 * k..Min(1000 * (k + 1), |s|)]
    ensures k == |Chunks(s)| ==> |s| <= 1000 * k
    decreases |s|
  {
    var cs := Chunks(s);
    if k == 0 {
      assert cs[..0] == [] && s[..0] == [];
      if s != [] { assert s[0..Min(1000, |s|)] == cs[0]; }
    } else if |s| <= 1000 {
      assert cs[..1] == [s] && s[..|s|] == s;
      FlattenCons(s, []);
      assert [s] + [] == [s];
    } else {
      var rest := s[1000..];
      assert cs == [s[..1000]] + Chunks(rest);
      hide Chunks;
      hide Flatten;
      ChunkIsThousand(rest, k - 1);
      assert cs[..k] == [s[..1000]] + Chunks(rest)[..k - 1];
      FlattenCons(s[..1000], Chunks(rest)[..k - 1]);
      ThousandLater(s, k);
    }
  }

  /**
   * The stream was posted in k whole thousands, and either that was all of it, or the next thousand could
   * not be posted, or a statement of it failed. Its statements are those of the entities in order.
   */
  ghost predicate PostedAt<D(!new), V(!new)>(server: Server<D, V>, fields: seq<Field>, body: seq<Entity<V>>, first: nat, d: D, d': D, ok: bool, k: nat) {
    && LeadsTo(server, fields, body[..Min(1000 * k, |body|)], d, Some(d'))
    && (forall i :: first <= i < first + k ==> CanPost(server, fields, i))
    && (ok ==> |body| <= 1000 * k && (k > 0 ==> 1000 * (k - 1) < |body|))
    && (!ok ==> 1000 * k < |body| &&
                (!CanPost(server, fields, first + k) || LeadsTo(server, fields, body[1000 * k..Min(1000 * (k + 1), |body|)], d', None)))
  }

  ghost predicate Posted<D(!new), V(!new)>(server: Server<D, V>, fields: seq<Field>, body: seq<Entity<V>>, first: nat, d: D, d': D, ok: bool) {
    exists k: nat :: PostedAt(server, fields, body, first, d, d', ok, k)
  }

  /** The chunks before the first failure are the first thousands of the stream. */
  lemma PostedThousands<D, V>(server: Server<D, V>, fields: seq<Field>, d: D, body: seq<Entity<V>>, first: nat) returns (k: nat)
    ensures var (d', ok) := PostAll(server, fields, d, Chunks(body), first);
            && ApplySeq(server, fields, d, body[..Min(1000 * k, |body|)]) == Some(d')
            && (forall i :: first <= i < first + k ==> CanPost(server, fields, i))
            && (ok ==> |body| <= 1000 * k && (k > 0 ==> 1000 * (k - 1) < |body|))
            && (!ok ==> 1000 * k < |body| && (!CanPost(server, fields, first + k) ||
                                              ApplySeq(server, fields, d', body[1000 * k..Min(1000 * (k + 1), |body|)]).None?))
  {
    hide PostAll;
    hide ApplySeq;
    hide Chunks;
    hide Flatten;
    hide CanPost;
    k := PostingIsOnePass(server, fields, d, Chunks(body), first);
    ChunkIsThousand(body, k);
    if k > 0 { ChunkIsThousand(body, k - 1); }
  }

  lemma {:induction false} PostAllIsPosted<D(!new), V(!new)>(server: Server<D, V>, fields: seq<Field>, d: D, body: seq<Entity<V>>, first: nat)
    requires forall e :: e in body ==> Strippable(e)
    ensures var (d', ok) := PostAll(server, fields, d, Chunks(body), first); Posted(server, fields, body, first, d, d', ok)
  {
    var (d', ok) := PostAll(server, fields, d, Chunks(body), first);
    var k := PostedThousands(server, fields, d, body, first);
    assert k > 0 ==> CanPost(server, fields, first);
    assert fields == [] ==> k == 0 && !CanPost(server, fields, first + k);
    hide PostAll;
    hide ApplySeq;
    hide Chunks;
    hide LeadsTo;
    hide CanPost;
    hide Strippable;
    var done := body[..Min(1000 * k, |body|)];
    SeqLeadsTo(server, fields, d, done);
    if !ok && CanPost(server, fields, first + k) {
      SeqLeadsTo(server, fields, d', body[1000 * k..Min(1000 * (k + 1), |body|)]);
    }
    assert PostedAt(server, fields, body, first, d, d', ok, k);
  }

  class PostLayer<D(!new), V(!new)> {
    const server: Server<D, V>
    /** The field mappings of the table definition, shared by all chunks and sorted in place. */
    const fields: array<Field>
    var db: D
    /** Chunks that were to be posted so far. */
    var posts: nat

    constructor (server: Server<D, V>, fields: array<Field>, db: D)
      ensures this.server == server && this.fields == fields && this.db == db && posts == 0
    {
      this.server, this.fields, this.db, posts := server, fields, db, 0;
    }

    /** sort.SliceStable, in place. */
    method SortFields()
      modifies fields
      ensures fields[..] == Sort(old(fields[..]), NotAfter)
    {
      var sorted := Sort(fields[..], NotAfter);
      forall i | 0 <= i < fields.Length {
        fields[i] := sorted[i];
      }
    }

    /** Sorts the fields unless two or more of them have no order. */
    method ArrangeFields()
      modifies fields
      ensures fields[..] == Arrange(old(fields[..]))
    {
      var count := 0;
      for i := 0 to fields.Length
        invariant count == Zeros(fields[..i])
      {
        assert Init(fields[..i + 1]) == fields[..i];
        if fields[i].sortOrder == 0 {
          count := count + 1;
        }
      }
      assert fields[..fields.Length] == fields[..];
      if count < 2 {
        SortFields();
      }
    }

    method PostEntities(entities: seq<Entity<V>>) returns (ok: bool)
      requires forall e :: e in entities ==> Strippable(e)
      modifies this, fields
      ensures fields[..] == (if server.defined && server.connects(old(posts)) then Arrange(old(fields[..])) else old(fields[..]))
      ensures posts == old(posts) + 1
      ensures (db, ok) == PostAll(server, fields[..], old(db), [entities], old(posts))
      ensures ok ==> server.defined && fields.Length > 0 && server.connects(old(posts)) && server.opens(old(posts)) &&
                     LeadsTo(server, fields[..], entities, old(db), Some(db))
      ensures !ok ==> db == old(db)
      ensures !ok && server.defined && fields.Length > 0 && server.connects(old(posts)) && server.opens(old(posts)) ==>
                LeadsTo(server, fields[..], entities, db, None)
    {
      hide LeadsTo;
      hide PostAll;
      hide ApplySeq;
      hide Arrange;
      hide Strippable;
      posts := posts + 1;
      PostOne(server, fields[..], db, entities, posts - 1);
      if !server.defined || !server.connects(posts - 1) {
        return false;
      }
      if fields.Length == 0 {
        NoFields();
        assert fields[..] == [];
        return false;
      }
      ArrangeFields();
      PostOne(server, fields[..], db, entities, posts - 1);
      if !server.opens(posts - 1) {
        return false;
      }
      var tx := ApplyChunk(entities);
      if tx.None? {
        // rollback: the database keeps the state before the chunk
        return false;
      }
      db := tx.value;
      return true;
    }

    /** The statements of one transaction, up to the first that fails. */
    method ApplyChunk(entities: seq<Entity<V>>) returns (tx: Option<D>)
      requires fields.Length > 0 && forall e :: e in entities ==> Strippable(e)
      ensures tx == ApplySeq(server, fields[..], db, entities)
      ensures LeadsTo(server, fields[..], entities, db, tx)
    {
      SeqLeadsTo(server, fields[..], db, entities);
      hide LeadsTo;
      hide ApplySeq;
      hide Argument;
      ghost var order := fields[..];
      var d := db;
      NothingApplied(server, order, db);
      assert entities[..0] == [];
      for n := 0 to |entities|
        invariant ApplySeq(server, order, db, entities[..n]) == Some(d)
      {
        var entity := entities[n];
        ApplyNext(server, order, db, entities, n);
        var s := StripProps(entity);
        var args := BuildArgs(s);
        assert args == Arguments(order, entity);
        var next := if !entity.deleted then server.upsert(d, args) else server.remove(d, args[0]);
        if next.None? {
          FailsAt(server, order, db, entities, n + 1);
          return None;
        }
        d := next.value;
      }
      assert entities[..|entities|] == entities;
      return Some(d);
    }

    /** One argument for each field, in their order; absent when the entity has no such property. */
    method BuildArgs(s: map<string, V>) returns (args: seq<Option<V>>)
      ensures |args| == fields.Length
      ensures forall i :: 0 <= i < fields.Length ==> args[i] == if fields[i].name in s then Some(s[fields[i].name]) else None
    {
      args := [];
      for i := 0 to fields.Length
        invariant |args| == i
        invariant forall j :: 0 <= j < i ==> args[j] == if fields[j].name in s then Some(s[fields[j].name]) else None
      {
        args := args + [if fields[i].name in s then Some(s[fields[i].name]) else None];
      }
    }

    /** PostEntities on top of the chunks already posted. */
    method PostNext(entities: seq<Entity<V>>, ghost order: seq<Field>, ghost start: D, ghost full: seq<seq<Entity<V>>>, ghost first: nat)
      returns (ok: bool)
      requires forall e :: e in entities ==> Strippable(e)
      requires Arrange(fields[..]) == order
      requires posts == first + |full| && PostAll(server, order, start, full, first) == (db, true)
      modifies this, fields
      ensures Arrange(fields[..]) == order && posts == first + |full| + 1
      ensures PostAll(server, order, start, full + [entities], first) == (db, ok)
    {
      hide PostAll;
      hide Arrange;
      Settled(fields[..]);
      PostOne(server, order, db, entities, posts);
      PostOne(server, fields[..], db, entities, posts);
      PostSteps(server, order, start, full, entities, first);
      ok := PostEntities(entities);
    }
  }

  /** A stream without its context. */
  function Body<T>(stream: seq<T>): seq<T> { if stream == [] then [] else stream[1..] }

  /** The variables that the closure of the handler captures, and the chunks it has posted. */
  class Posting<D(!new), V(!new)> {
    const layer: PostLayer<D, V>
    var entities: seq<Entity<V>>
    var read: int
    var isFirst: bool
    ghost const order: seq<Field>
    ghost const start: D
    ghost const first: nat
    ghost var full: seq<seq<Entity<V>>>

    constructor (layer: PostLayer<D, V>)
      ensures Valid([]) && this.layer == layer
      ensures order == Arrange(layer.fields[..]) && start == layer.db && first == layer.posts
    {
      this.layer := layer;
      entities, read, isFirst := [], 0, true;
      order, start, first, full := Arrange(layer.fields[..]), layer.db, layer.posts, [];
      new;
      Settled(layer.fields[..]);
    }

    /** What was emitted so far is posted in full chunks, apart from the entities at hand. */
    ghost predicate Valid(seen: seq<Entity<V>>)
      reads this, layer, layer.fields
    {
      && isFirst == (seen == []) && read == |entities| < BATCH_SIZE
      && Holds(seen) && layer.posts == first + |full|
      && PostAll(layer.server, order, start, full, first) == (layer.db, true)
    }

    /** The entities at hand are a full chunk that could not be posted. */
    ghost predicate Failed(seen: seq<Entity<V>>)
      reads this, layer, layer.fields
    {
      Holds(seen) && |entities| == BATCH_SIZE && PostAll(layer.server, order, start, full + [entities], first) == (layer.db, false)
    }

    ghost predicate Holds(seen: seq<Entity<V>>)
      reads this, layer, layer.fields
    {
      && Arrange(layer.fields[..]) == order
      && (forall c :: c in full ==> |c| == BATCH_SIZE)
      && Flatten(full) + entities == Body(seen)
    }

    /** The closure: the first element is the context, full chunks are posted as they fill up. */
    method Emit(entity: Entity<V>, ghost seen: seq<Entity<V>>) returns (ok: bool)
      requires Valid(seen) && forall e :: e in seen + [entity] ==> Strippable(e)
      modifies this, layer, layer.fields
      ensures if ok then Valid(seen + [entity]) else Failed(seen + [entity])
    {
      hide PostAll;
      hide Flatten;
      hide Arrange;
      BodySnoc(seen, entity);
      if isFirst {
        isFirst := false;
        return true;
      }
      AtHand(Flatten(full), entities, entity, seen);
      entities := entities + [entity];
      read := read + 1;
      if read == BATCH_SIZE {
        read := 0;
        ok := layer.PostNext(entities, order, start, full, first);
        if !ok {
          return false;
        }
        FlattenSnoc(full, entities);
        full := full + [entities];
        entities := [];
      }
      return true;
    }

    /** parseStream: emits the stream up to the first error. */
    method ParseStream(stream: seq<Entity<V>>) returns (ok: bool, ghost emitted: nat)
      requires Valid([]) && forall e :: e in stream ==> Strippable(e)
      modifies this, layer, layer.fields
      ensures emitted <= |stream| && if ok then emitted == |stream| && Valid(stream) else Failed(stream[..emitted])
    {
      hide Valid;
      hide Failed;
      hide Strippable;
      assert stream[..0] == [];
      for n := 0 to |stream|
        invariant Valid(stream[..n])
      {
        assert stream[..n + 1] == stream[..n] + [stream[n]];
        ok := Emit(stream[n], stream[..n]);
        if !ok {
          return false, n + 1;
        }
      }
      assert stream[..|stream|] == stream;
      return true, |stream|;
    }

    /** What is left after the stream. */
    method PostRest(ghost stream: seq<Entity<V>>) returns (ok: bool)
      requires Valid(stream) && forall e :: e in stream ==> Strippable(e)
      modifies this, layer, layer.fields
      ensures (layer.db, ok) == PostAll(layer.server, order, start, Chunks(Body(stream)), first) && Arrange(layer.fields[..]) == order
    {
      hide PostAll;
      hide Flatten;
      hide Arrange;
      hide Chunks;
      ChunksOf(full, entities);
      if read > 0 {
        InBody(Flatten(full), entities, stream);
        ok := layer.PostNext(entities, order, start, full, first);
        return;
      }
      assert full + [] == full;
      return true;
    }
  }

  /** The stream handler. */
  method PostHandler<D(!new), V(!new)>(layer: PostLayer<D, V>, stream: seq<Entity<V>>) returns (ok: bool)
    requires forall e :: e in stream ==> Strippable(e)
    modifies layer, layer.fields
    ensures (layer.db, ok) ==
            PostAll(layer.server, Arrange(old(layer.fields[..])), old(layer.db), Chunks(Body(stream)), old(layer.posts))
    ensures Arrange(layer.fields[..]) == Arrange(old(layer.fields[..]))
    ensures Posted(layer.server, Arrange(old(layer.fields[..])), if stream == [] then [] else stream[1..], old(layer.posts), old(layer.db), layer.db, ok)
  {
    hide Posted;
    assert forall e :: e in Body(stream) ==> e in stream;
    PostAllIsPosted(layer.server, Arrange(layer.fields[..]), layer.db, Body(stream), layer.posts);
    var posting := new Posting(layer);
    ghost var emitted;
    ok, emitted := posting.ParseStream(stream);
    if !ok {
      ghost var p := posting;
      BodySplit(stream, emitted);
      EarlyFailure(layer.server, p.order, p.start, p.full, p.entities, Body(stream), stream[emitted..], p.first);
      return false;
    }
    ok := posting.PostRest(stream);
  }

  lemma BodySnoc<T>(seen: seq<T>, x: T)
    ensures Body(seen + [x]) == if seen == [] then [] else Body(seen) + [x]
  {
  }

  lemma BodySplit<T>(s: seq<T>, n: nat)
    requires n <= |s| && Body(s[..n]) != []
    ensures Body(s) == Body(s[..n]) + s[n..]
  {
  }

  lemma InBody<T>(posted: seq<T>, rest: seq<T>, stream: seq<T>)
    requires posted + rest == Body(stream)
    ensures forall x :: x in rest ==> x in stream
  {
    forall x | x in rest ensures x in stream {
      assert x in posted + rest;
      assert x in Body(stream);
    }
  }

  lemma AtHand<T>(posted: seq<T>, rest: seq<T>, x: T, seen: seq<T>)
    requires posted + rest == Body(seen) && seen != []
    ensures posted + (rest + [x]) == Body(seen + [x])
    ensures forall y :: y in rest + [x] ==> y in seen + [x]
  {
    InBody(posted, rest, seen);
    BodySnoc(seen, x);
  }

  lemma {:induction false} FlattenSnoc<T>(parts: seq<seq<T>>, part: seq<T>)
    ensures Flatten(parts + [part]) == Flatten(parts) + part && Flatten(parts) + part + [] == Flatten(parts) + part
  {
    assert Init(parts + [part]) == parts;
  }

  lemma Settled(fields: seq<Field>)
    ensures Arrange(Arrange(fields)) == Arrange(fields)
  {
    ArrangeIsSettled(fields, Field("", 0));
  }

  /** Posting one more chunk on top of posted ones. */
  lemma {:induction false} PostSteps<D, V>(server: Server<D, V>, fields: seq<Field>, d: D, full: seq<seq<Entity<V>>>, chunk: seq<Entity<V>>, n: nat)
    requires PostAll(server, fields, d, full, n).1
    ensures PostAll(server, fields, d, full + [chunk], n) == PostAll(server, fields, PostAll(server, fields, d, full, n).0, [chunk], n + |full|)
  {
    PostAllSnoc(server, fields, d, full, chunk, n);
    assert Init([chunk]) == [];
  }

  /** A failure in the middle of the stream is the result for the whole stream. */
  lemma {:induction false} EarlyFailure<D, V>(server: Server<D, V>, fields: seq<Field>, d: D, full: seq<seq<Entity<V>>>, chunk: seq<Entity<V>>,
                           body: seq<Entity<V>>, left: seq<Entity<V>>, n: nat)
    requires (forall c :: c in full ==> |c| == BATCH_SIZE) && |chunk| == BATCH_SIZE
    requires body == Flatten(full) + chunk + left && !PostAll(server, fields, d, full + [chunk], n).1
    ensures PostAll(server, fields, d, Chunks(body), n) == PostAll(server, fields, d, full + [chunk], n)
  {
    ChunksPrefix(full + [chunk], left);
    assert Init(full + [chunk]) == full;
    FailedStays(server, fields, d, full + [chunk], Chunks(left), n);
  }

  /** A chunk fails as a whole when one of its entities does. */
  lemma {:induction false} FailsAt<D, V>(server: Server<D, V>, fields: seq<Field>, d: D, es: seq<Entity<V>>, n: nat)
    requires n <= |es| && ApplySeq(server, fields, d, es[..n]).None?
    ensures ApplySeq(server, fields, d, es).None?
  {
    ApplySeqConcat(server, fields, d, es[..n], es[n..]);
    assert es[..n] + es[n..] == es;
  }
}
