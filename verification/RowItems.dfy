/** The item that a mapper fills: parallel columns and values, and the same pairs as a map. */
module RowItems {

  datatype Value = VStr(s: string) | VNil | VBool(b: bool) | VInt(n: int)

  type Cells = seq<(string, Value)>

  function Names(cells: Cells): (r: seq<string>)
    ensures |r| == |cells|
  {
    seq(|cells|, i requires 0 <= i < |cells| => cells[i].0)
  }

  /** The map a sequence of SetValue calls leaves: the last call for a name decides. */
  function MapOf(cells: Cells): map<string, Value> {
    if cells == [] then map[]
    else var last := cells[|cells| - 1]; MapOf(cells[..|cells| - 1])[last.0 := last.1]
  }

  /** A name is in the map iff some call set it, and the last call that did decides its value. */
  lemma {:induction false} MapHoldsLast(cells: Cells, name: string) returns (i: nat)
    ensures if name in MapOf(cells) then
              i < |cells| && cells[i] == (name, MapOf(cells)[name]) && forall j :: i < j < |cells| ==> cells[j].0 != name
            else forall j :: 0 <= j < |cells| ==> cells[j].0 != name
  {
    i := 0;
    if cells != [] {
      var init, n := cells[..|cells| - 1], |cells| - 1;
      i := MapHoldsLast(init, name);
      assert forall j :: 0 <= j < n ==> cells[j] == init[j];
      if cells[n].0 == name { i := n; }
    }
  }

  lemma {:induction false} MapHasNames(cells: Cells, name: string)
    ensures name in MapOf(cells) <==> name in Names(cells)
    ensures name in MapOf(cells) ==> (name, MapOf(cells)[name]) in cells
  {
    var i := MapHoldsLast(cells, name);
    if name in Names(cells) {
      var j :| 0 <= j < |cells| && Names(cells)[j] == name;
      assert cells[j].0 == name;
    }
    if name in MapOf(cells) { assert Names(cells)[i] == name; }
  }

  function Zip(names: seq<string>, values: seq<Value>): (r: Cells)
    requires |names| == |values|
    ensures |r| == |names|
  {
    seq(|names|, i requires 0 <= i < |names| => (names[i], values[i]))
  }

  class RowItem {
    var fields: map<string, Value>
    var columns: seq<string>
    var values: seq<Value>
    var deleted: bool

    constructor ()
      ensures Valid() && Contents() == [] && !deleted
    {
      fields, columns, values, deleted := map[], [], [], false;
    }

    /** The arrays are parallel and agree with the map. */
    ghost predicate Valid()
      reads this`fields, this`columns, this`values
    {
      |columns| == |values| && fields == MapOf(Contents())
    }

    function Contents(): (r: Cells)
      requires |columns| == |values|
      reads this`columns, this`values
      ensures |r| == |columns| && Names(r) == columns
    {
      Zip(columns, values)
    }

    method SetValue(name: string, value: Value)
      requires Valid()
      modifies this
      ensures Valid() && Contents() == old(Contents()) + [(name, value)] && deleted == old(deleted)
    {
      ghost var before := Contents();
      columns := columns + [name];
      values := values + [value];
      fields := fields[name := value];
      assert Contents()[..|before|] == before;
    }

    method GetPropertyNames() returns (names: seq<string>)
      requires Valid()
      ensures names == Names(Contents())
      ensures forall name :: name in names <==> name in fields
    {
      names := columns;
      forall name ensures name in names <==> name in fields { MapHasNames(Contents(), name); }
    }
  }
}
