/** How the entities handed to the writer become the batch: which of them each id is left with. */
module Gathering {
  import opened Basics
  import opened RowItems
  import opened Batches
  import opened WriterSpec

  /** The mapped item of the entity holds this id: the last value set for the id column is the string. */
  ghost predicate HasId(cfg: Config, e: Entity, id: string) {
    e.cells.Some? &&
    exists i :: 0 <= i < |e.cells.value| && e.cells.value[i] == (cfg.idColumn, VStr(id)) &&
                forall j :: i < j < |e.cells.value| ==> e.cells.value[j].0 != cfg.idColumn
  }

  ghost predicate Touches(cfg: Config, es: seq<Entity>, id: string) {
    exists i :: 0 <= i < |es| && HasId(cfg, es[i], id)
  }

  /** Entity i is a version of the id that is not deleted. */
  ghost predicate LiveVersion(cfg: Config, es: seq<Entity>, i: nat, id: string)
    requires i < |es|
  {
    HasId(cfg, es[i], id) && !es[i].isDeleted
  }

  ghost predicate Lives(cfg: Config, es: seq<Entity>, id: string) {
    exists i :: 0 <= i < |es| && LiveVersion(cfg, es, i, id)
  }

  /** Entity i is the last of the versions of the id, not deleted, whose recorded time is the greatest. */
  ghost predicate NewestVersion(cfg: Config, es: seq<Entity>, i: nat, id: string)
    requires i < |es|
  {
    && LiveVersion(cfg, es, i, id)
    && (forall j :: 0 <= j < |es| && LiveVersion(cfg, es, j, id) ==> es[j].recorded <= es[i].recorded)
    && (forall j :: i < j < |es| && LiveVersion(cfg, es, j, id) ==> es[j].recorded < es[i].recorded)
  }

  /** The write comes from entity i, with its recorded time and exactly its cells. */
  predicate ComesFrom(op: Op, e: Entity) { op.recorded == e.recorded && Some(op.cells) == e.cells }

  /**
   * The batch gathers these entities, seen at one id: it is deleted iff some entity holds it, and
   * inserted iff one that is not deleted does, and then from the newest version.
   */
  ghost predicate GathersAt(cfg: Config, es: seq<Entity>, batch: seq<Op>, id: string) {
    && (id in Ids(batch) <==> Touches(cfg, es, id))
    && (id in Winners(batch) <==> Lives(cfg, es, id))
    && (id in Winners(batch) ==> exists i :: 0 <= i < |es| && NewestVersion(cfg, es, i, id) && ComesFrom(Winners(batch)[id], es[i]))
  }

  ghost predicate Gathers(cfg: Config, es: seq<Entity>, batch: seq<Op>) {
    forall id :: GathersAt(cfg, es, batch, id)
  }

  lemma NothingGathered(cfg: Config)
    ensures Gathers(cfg, [], [])
  {
  }

  /** An entity is accepted iff its item holds an id, and the write has that id. */
  lemma AcceptIff(cfg: Config, e: Entity, id: string)
    ensures HasId(cfg, e, id) <==> Accept(cfg, e).Some? && Accept(cfg, e).value.id == id
  {
    hide MapOf;
    if e.cells.Some? {
      var cells := e.cells.value;
      var i := MapHoldsLast(cells, cfg.idColumn);
      if HasId(cfg, e, id) {
        var j :| 0 <= j < |cells| && cells[j] == (cfg.idColumn, VStr(id)) && forall k :: j < k < |cells| ==> cells[k].0 != cfg.idColumn;
        assert i == j;
      }
    }
  }

  /** What an accepted entity writes. */
  lemma AcceptedAs(cfg: Config, e: Entity)
    requires Accept(cfg, e).Some?
    ensures var op := Accept(cfg, e).value; HasId(cfg, e, op.id) && op.deleted == e.isDeleted && ComesFrom(op, e)
  {
    AcceptIff(cfg, e, Accept(cfg, e).value.id);
    hide MapOf;
    hide HasId;
  }

  /** One more entity without this id leaves the id as it is. */
  lemma OtherEntity(cfg: Config, es: seq<Entity>, e: Entity, id: string)
    requires !HasId(cfg, e, id)
    ensures Touches(cfg, es + [e], id) == Touches(cfg, es, id) && Lives(cfg, es + [e], id) == Lives(cfg, es, id)
    ensures forall i :: 0 <= i < |es| ==> NewestVersion(cfg, es + [e], i, id) == NewestVersion(cfg, es, i, id)
  {
    hide HasId;
    var all := es + [e];
    assert forall i :: 0 <= i < |es| ==> all[i] == es[i];
    forall i | 0 <= i < |es| ensures LiveVersion(cfg, all, i, id) == LiveVersion(cfg, es, i, id) {}
    if i :| 0 <= i < |es| && HasId(cfg, es[i], id) { assert HasId(cfg, all[i], id); }
    if i :| 0 <= i < |all| && HasId(cfg, all[i], id) { assert HasId(cfg, es[i], id); }
    if i :| 0 <= i < |es| && LiveVersion(cfg, es, i, id) { assert LiveVersion(cfg, all, i, id); }
    if i :| 0 <= i < |all| && LiveVersion(cfg, all, i, id) { assert LiveVersion(cfg, es, i, id); }
    forall i | 0 <= i < |es| ensures NewestVersion(cfg, all, i, id) == NewestVersion(cfg, es, i, id) {
      assert !LiveVersion(cfg, all, |es|, id);
    }
  }

  /** One more version of this id. */
  lemma OneMoreVersion(cfg: Config, es: seq<Entity>, e: Entity, id: string)
    requires HasId(cfg, e, id)
    ensures Touches(cfg, es + [e], id) && (Lives(cfg, es + [e], id) <==> !e.isDeleted || Lives(cfg, es, id))
    ensures forall i :: 0 <= i < |es| && NewestVersion(cfg, es, i, id) ==>
              if e.isDeleted || e.recorded < es[i].recorded then NewestVersion(cfg, es + [e], i, id)
              else NewestVersion(cfg, es + [e], |es|, id)
    ensures !e.isDeleted && !Lives(cfg, es, id) ==> NewestVersion(cfg, es + [e], |es|, id)
  {
    hide HasId;
    var all := es + [e];
    assert forall i :: 0 <= i < |es| ==> all[i] == es[i];
    assert all[|es|] == e && HasId(cfg, all[|es|], id);
    forall i | 0 <= i < |es| ensures LiveVersion(cfg, all, i, id) == LiveVersion(cfg, es, i, id) {}
    assert LiveVersion(cfg, all, |es|, id) <==> !e.isDeleted;
    if i :| 0 <= i < |es| && LiveVersion(cfg, es, i, id) { assert LiveVersion(cfg, all, i, id); }
    if i :| 0 <= i < |all| && LiveVersion(cfg, all, i, id) { assert i < |es| ==> LiveVersion(cfg, es, i, id); }
  }

  /** One more entity, seen at one id. */
  lemma GathersStepAt(cfg: Config, es: seq<Entity>, batch: seq<Op>, e: Entity, id: string)
    requires GathersAt(cfg, es, batch, id)
    ensures GathersAt(cfg, es + [e], match Accept(cfg, e) case None => batch case Some(op) => batch + [op], id)
  {
    AcceptIff(cfg, e, id);
    hide HasId;
    hide Touches;
    hide Lives;
    hide NewestVersion;
    hide Ids;
    hide Winners;
    hide Accept;
    var all := es + [e];
    assert all[|es|] == e && forall i :: 0 <= i < |es| ==> all[i] == es[i];
    if HasId(cfg, e, id) {
      var op := Accept(cfg, e).value;
      AcceptedAs(cfg, e);
      Grow(batch, op);
      OneMoreVersion(cfg, es, e, id);
      if id in Winners(batch) {
        var i :| 0 <= i < |es| && NewestVersion(cfg, es, i, id) && ComesFrom(Winners(batch)[id], es[i]);
        if e.isDeleted || e.recorded < es[i].recorded {
          assert NewestVersion(cfg, all, i, id) && ComesFrom(Winners(batch + [op])[id], all[i]);
        } else {
          assert NewestVersion(cfg, all, |es|, id) && ComesFrom(Winners(batch + [op])[id], all[|es|]);
        }
      } else if !e.isDeleted {
        assert NewestVersion(cfg, all, |es|, id) && ComesFrom(Winners(batch + [op])[id], all[|es|]);
      }
    } else {
      OtherEntity(cfg, es, e, id);
      if Accept(cfg, e).Some? { Grow(batch, Accept(cfg, e).value); }
      if id in Winners(batch) {
        var i :| 0 <= i < |es| && NewestVersion(cfg, es, i, id) && ComesFrom(Winners(batch)[id], es[i]);
        assert NewestVersion(cfg, all, i, id) && ComesFrom(Winners(batch)[id], all[i]);
      }
    }
  }

  /** Every entity keeps the batch a gathering, whether or not it is accepted. */
  lemma GathersStep(cfg: Config, es: seq<Entity>, batch: seq<Op>, e: Entity)
    requires Gathers(cfg, es, batch)
    ensures Gathers(cfg, es + [e], match Accept(cfg, e) case None => batch case Some(op) => batch + [op])
  {
    hide GathersAt;
    hide Accept;
    var all, after := es + [e], match Accept(cfg, e) case None => batch case Some(op) => batch + [op];
    forall id ensures GathersAt(cfg, all, after, id) {
      GathersStepAt(cfg, es, batch, e, id);
    }
  }

  /** The writes that pass mapping, in order. */
  function Accepted(cfg: Config, es: seq<Entity>): seq<Op>
    decreases |es|
  {
    if es == [] then []
    else
      match Accept(cfg, es[0])
      case None => Accepted(cfg, es[1..])
      case Some(op) => [op] + Accepted(cfg, es[1..])
  }

  /** Entities of which none is accepted. */
  ghost predicate Refused(cfg: Config, es: seq<Entity>) { forall id :: !Touches(cfg, es, id) }

  /**
   * The batches of a run gather consecutive parts of the stream; what comes after the last batch is
   * refused altogether.
   */
  lemma {:induction false} CutGathers(cfg: Config, gathered: seq<Entity>, pending: seq<Op>, es: seq<Entity>) returns (parts: seq<seq<Entity>>)
    requires Gathers(cfg, gathered, pending)
    ensures var batches := Cut(cfg.flushThreshold, pending, Accepted(cfg, es));
            && |parts| == |batches| + 1 && Flatten(parts) == gathered + es && Refused(cfg, parts[|batches|])
            && forall k :: 0 <= k < |batches| ==> Gathers(cfg, parts[k], batches[k])
    decreases |es|
  {
    hide Gathers;
    hide Size;
    hide Accept;
    NothingGathered(cfg);
    if es == [] {
      FlattenOne(gathered);
      if pending == [] {
        RefusedWhenEmpty(cfg, gathered);
        parts := [gathered];
      } else {
        RefusedWhenEmpty(cfg, []);
        parts := [gathered, []];
      }
    } else {
      var e, rest, all := es[0], es[1..], gathered + [es[0]];
      assert all + rest == gathered + es;
      GathersStep(cfg, gathered, pending, e);
      match Accept(cfg, e) {
        case None => parts := CutGathers(cfg, all, pending, rest);
        case Some(op) =>
          var batch := pending + [op];
          assert Accepted(cfg, es)[1..] == Accepted(cfg, rest);
          if Size(batch) >= cfg.flushThreshold {
            var more := CutGathers(cfg, [], [], rest);
            assert [] + rest == rest;
            FlattenCons(all, more);
            parts := [all] + more;
          } else {
            parts := CutGathers(cfg, all, batch, rest);
          }
      }
    }
  }

  lemma FlattenOne(s: seq<Entity>)
    ensures Flatten([s]) == s && Flatten([s, []]) == s && s + [] == s
  {
    assert Init([s]) == [] && Init([s, []]) == [s];
  }

  lemma RefusedWhenEmpty(cfg: Config, es: seq<Entity>)
    requires Gathers(cfg, es, [])
    ensures Refused(cfg, es)
  {
    hide Touches;
    hide Lives;
    forall id ensures !Touches(cfg, es, id) { assert GathersAt(cfg, es, [], id); }
  }
}
