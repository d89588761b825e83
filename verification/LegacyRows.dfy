/** Turning a scanned row into an entity: the cells that are allocated and the assertions made on them. */
module LegacyRows {
  import opened Basics
  import opened LegacyConfig

  /** The scan targets; the optional ones are the nullable SQL types. */
  datatype Cell =
    | IntCell(i: Option<int>)
    | StringCell(s: Option<string>)
    | TimeCell(t: Option<int>)
    | FloatCell(f: Option<real>)
    | BitCell(b: bool)
    | RawCell(raw: Option<string>)

  datatype Kind = IntKind | StringKind | TimeKind | FloatKind | BitKind | RawKind

  datatype Property =
    | PNil
    | PInt(i: int)
    | PString(s: string)
    | PTime(t: int)
    | PFloat(f: real)
    | PBit(b: bool)
    | PUuid(raw: string)
    | PBase64(raw: string)

  datatype Column = Column(name: string, dbType: string, cell: Cell)

  /** The table definition and the formatting of ids and references, which this model does not look into. */
  datatype Table = Table(mapping: TableMapping, idOf: string -> string, referenceOf: (string, string) -> string)

  // ---------------------------------------------------------------- allocation

  function KindFor(t: string): Kind {
    if t in {"INT", "SMALLINT", "TINYINT"} then IntKind
    else if t in {"VARCHAR", "NVARCHAR", "TEXT", "NTEXT"} then StringKind
    else if t in {"DATETIME", "DATE", "TIMESTAMP"} then TimeKind
    else if t in {"MONEY", "DECIMAL", "FLOAT", "DOUBLE"} then FloatKind
    else if t == "BIT" then BitKind
    else RawKind
  }

  function KindOf(c: Cell): Kind {
    match c
    case IntCell(_) => IntKind
    case StringCell(_) => StringKind
    case TimeCell(_) => TimeKind
    case FloatCell(_) => FloatKind
    case BitCell(_) => BitKind
    case RawCell(_) => RawKind
  }

  /** The row was scanned into the cells that BuildRowType allocates. */
  predicate Scanned(row: seq<Column>) {
    forall i :: 0 <= i < |row| ==> KindOf(row[i].cell) == KindFor(row[i].dbType)
  }

  // ---------------------------------------------------------------- one column

  const OPERATION := "__$operation"

  function MappingFor(table: Table, name: string): Option<ColumnMapping> {
    if name in table.mapping.columns then Some(table.mapping.columns[name]) else None
  }

  /** Ignored by its mapping, or an unmapped column of change data capture. */
  predicate IsKept(table: Table, name: string) {
    match MappingFor(table, name)
    case Some(m) => !m.ignoreColumn
    case None => !(table.mapping.cdcEnabled && "__$" <= name)
  }

  /** The property a kept column is stored under. */
  function KeyFor(table: Table, name: string): string {
    match MappingFor(table, name)
    case Some(m) => if m.propertyName != "" then m.propertyName else "ns0:" + name
    case None => "ns0:" + name
  }

  const INT64_LIMIT := 0x8000_0000_0000_0000

  function WithoutSign(raw: string): string { if raw != "" && raw[0] in {'+', '-'} then raw[1..] else raw }

  predicate IsNegative(raw: string) { raw != "" && raw[0] == '-' }

  /** strconv.ParseInt in base 10 with 64 bits: a sign is allowed, and the number has to fit. */
  function ToInt64(raw: string): Option<int> {
    match ParseNat(WithoutSign(raw))
    case None => None
    case Some(m) =>
      var n := if IsNegative(raw) then 0 - m else m;
      if -INT64_LIMIT <= n < INT64_LIMIT then Some(n) else None
  }

  /** A sign, zeros and the decimal numeral of the number without its sign. */
  ghost predicate Spells(raw: string, sign: string, zeros: string, n: int) {
    && sign in ["", "+", "-"] && (sign == "-" ==> n <= 0) && (sign != "-" ==> n >= 0)
    && (forall i :: 0 <= i < |zeros| ==> zeros[i] == '0')
    && raw == sign + zeros + NatText(if n < 0 then -n else n)
  }

  /** The text denotes a number of 64 bits. */
  ghost predicate IsInt64(raw: string, n: int) {
    -INT64_LIMIT <= n < INT64_LIMIT && exists sign, zeros :: Spells(raw, sign, zeros, n)
  }

  lemma SignedText(sign: string, digits: string)
    requires sign in ["", "+", "-"] && digits != "" && IsDigit(digits[0])
    ensures WithoutSign(sign + digits) == digits && (IsNegative(sign + digits) <==> sign == "-")
  {
  }

  lemma SignOf(raw: string) returns (sign: string)
    ensures sign in ["", "+", "-"] && raw == sign + WithoutSign(raw) && (IsNegative(raw) <==> sign == "-")
  {
    sign := if raw != "" && raw[0] in {'+', '-'} then [raw[0]] else "";
  }

  lemma SpelledIsParsed(raw: string, sign: string, zeros: string, n: int)
    requires Spells(raw, sign, zeros, n) && -INT64_LIMIT <= n < INT64_LIMIT
    ensures ToInt64(raw) == Some(n)
  {
    hide ParseNat;
    hide NatText;
    hide WithoutSign;
    hide IsNegative;
    var m := if n < 0 then -n else n;
    var digits := zeros + NatText(m);
    ParseZeros(zeros, m);
    assert digits[0] == if zeros == "" then NatText(m)[0] else zeros[0];
    SignedText(sign, digits);
    assert raw == sign + digits;
  }

  lemma ParsedIsSpelled(raw: string)
    requires ToInt64(raw).Some?
    ensures IsInt64(raw, ToInt64(raw).value)
  {
    hide ParseNat;
    hide NatText;
    hide WithoutSign;
    hide IsNegative;
    var zeros := ParsedIsNumeral(WithoutSign(raw));
    var sign := SignOf(raw);
    assert Spells(raw, sign, zeros, ToInt64(raw).value);
  }

  /** Exactly the numerals of 64 bits are converted, each to its number. */
  lemma Int64Exact(raw: string, n: int)
    ensures ToInt64(raw) == Some(n) <==> IsInt64(raw, n)
  {
    if ToInt64(raw) == Some(n) { ParsedIsSpelled(raw); }
    hide ToInt64;
    if IsInt64(raw, n) {
      var sign, zeros :| Spells(raw, sign, zeros, n);
      SpelledIsParsed(raw, sign, zeros, n);
    }
  }

  /** The property value of a cell and its text for ids and references; nothing when a type assertion fails. */
  function Extract(t: string, c: Cell): Option<(Property, string)> {
    if t in {"VARCHAR", "NVARCHAR", "TEXT", "NTEXT"} then
      if !c.StringCell? then None
      else Some(match c.s case Some(s) => (PString(s), s) case None => (PNil, ""))
    else if t == "UNIQUEIDENTIFIER" then
      if !c.RawCell? then None
      else Some(match c.raw case Some(b) => (PUuid(b), "") case None => (PNil, ""))
    else if t in {"DATETIME", "DATE", "TIMESTAMP"} then
      if !c.TimeCell? then None
      else Some(match c.t case Some(x) => (PTime(x), "") case None => (PNil, ""))
    else if t in {"INT", "SMALLINT", "TINYINT"} then
      if !c.IntCell? then None
      else Some(match c.i case Some(n) => (PInt(n), IntText(n)) case None => (PNil, ""))
    else if t == "BIGINT" then
      if !c.RawCell? then None
      else if c.raw.None? then Some((PNil, ""))
      else Some(match ToInt64(c.raw.value) case Some(n) => (PInt(n), IntText(n)) case None => (PNil, ""))
    else if t in {"MONEY", "DECIMAL", "FLOAT", "DOUBLE"} then
      if !c.FloatCell? then None
      else Some(match c.f case Some(x) => (PFloat(x), "") case None => (PNil, ""))
    else if t == "BIT" then
      if !c.BitCell? then None else Some((PBit(c.b), ""))
    else if t in {"TINYBLOB", "BLOB"} then
      if !c.RawCell? then None
      else Some(match c.raw case Some(b) => (PBase64(b), "") case None => (PNil, ""))
    else Some((PNil, ""))
  }

  /** The assertions agree with the allocation, type by type. */
  lemma {:induction false} AssertionsHold(t: string, c: Cell)
    requires KindOf(c) == KindFor(t)
    ensures Extract(t, c).Some?
  {
  }

  // ---------------------------------------------------------------- what a column gives

  predicate IsNull(c: Cell) { c in [IntCell(None), StringCell(None), TimeCell(None), FloatCell(None), RawCell(None)] }

  const CONVERTED := {
    "VARCHAR", "NVARCHAR", "TEXT", "NTEXT", "UNIQUEIDENTIFIER", "DATETIME", "DATE", "TIMESTAMP", "INT", "SMALLINT", "TINYINT",
    "BIGINT", "MONEY", "DECIMAL", "FLOAT", "DOUBLE", "BIT", "TINYBLOB", "BLOB"}

  /** The column holds this integer, or the text of this integer in 64 bits. */
  ghost predicate HasNumber(c: Column, n: int) {
    || (c.dbType in {"INT", "SMALLINT", "TINYINT"} && c.cell == IntCell(Some(n)))
    || (c.dbType == "BIGINT" && c.cell.RawCell? && c.cell.raw.Some? && IsInt64(c.cell.raw.value, n))
  }

  /** What a column is worth; nothing for NULL, for a type without a conversion and for text that is no integer. */
  ghost predicate HasValue(c: Column, v: Property) {
    match v
    case PString(s) => c.dbType in {"VARCHAR", "NVARCHAR", "TEXT", "NTEXT"} && c.cell == StringCell(Some(s))
    case PInt(n) => HasNumber(c, n)
    case PTime(x) => c.dbType in {"DATETIME", "DATE", "TIMESTAMP"} && c.cell == TimeCell(Some(x))
    case PFloat(x) => c.dbType in {"MONEY", "DECIMAL", "FLOAT", "DOUBLE"} && c.cell == FloatCell(Some(x))
    case PBit(b) => c.dbType == "BIT" && c.cell == BitCell(b)
    case PUuid(raw) => c.dbType == "UNIQUEIDENTIFIER" && c.cell == RawCell(Some(raw))
    case PBase64(raw) => c.dbType in {"TINYBLOB", "BLOB"} && c.cell == RawCell(Some(raw))
    case PNil => c.dbType !in CONVERTED || (c.dbType != "BIT" && IsNull(c.cell)) || (c.dbType == "BIGINT" && forall n :: !HasNumber(c, n))
  }

  /** The text that feeds ids and references: a non-empty string, or the decimal numeral of a number. */
  ghost predicate Feeds(c: Column, text: string) {
    text != "" && if c.dbType in {"VARCHAR", "NVARCHAR", "TEXT", "NTEXT"} then c.cell == StringCell(Some(text))
                  else exists n :: HasNumber(c, n) && text == IntText(n)
  }

  lemma NumberExact(c: Column, n: int)
    ensures HasNumber(c, n) <==> Extract(c.dbType, c.cell) == Some((PInt(n), IntText(n)))
  {
    hide IsInt64;
    hide ToInt64;
    hide IntText;
    if c.dbType == "BIGINT" {
      if c.cell.RawCell? && c.cell.raw.Some? { Int64Exact(c.cell.raw.value, n); }
    } else if c.dbType in {"INT", "SMALLINT", "TINYINT"} {
    } else {
      assert !HasNumber(c, n);
    }
  }

  /** A column that meets its assertion gives its value, and there is no other. */
  lemma ValueExact(c: Column, v: Property)
    requires Extract(c.dbType, c.cell).Some?
    ensures HasValue(c, v) <==> v == Extract(c.dbType, c.cell).value.0
  {
    forall n ensures HasNumber(c, n) <==> Extract(c.dbType, c.cell) == Some((PInt(n), IntText(n))) { NumberExact(c, n); }
    hide HasNumber;
    hide ToInt64;
    hide IntText;
  }

  lemma FeedExact(c: Column, text: string)
    ensures Feeds(c, text) <==> text == TextOf(c) != ""
  {
    forall n ensures HasNumber(c, n) <==> Extract(c.dbType, c.cell) == Some((PInt(n), IntText(n))) { NumberExact(c, n); }
    hide HasNumber;
    hide ToInt64;
    hide NatText;
  }

  // ---------------------------------------------------------------- what an entity of a row is

  /** Ignored by its mapping, or without one when it belongs to change data capture. */
  predicate IsDropped(table: Table, name: string) {
    if name in table.mapping.columns then table.mapping.columns[name].ignoreColumn else table.mapping.cdcEnabled && "__$" <= name
  }

  /** The column is stored, under its property name or else under its own in the namespace ns0. */
  predicate IsStored(table: Table, c: Column, key: string) {
    var columns := table.mapping.columns;
    && !IsDropped(table, c.name)
    && key == if c.name in columns && columns[c.name].propertyName != "" then columns[c.name].propertyName else "ns0:" + c.name
  }

  ghost predicate IsIdText(table: Table, c: Column, text: string) {
    !IsDropped(table, c.name) && c.name in table.mapping.columns && table.mapping.columns[c.name].isIdColumn && Feeds(c, text)
  }

  ghost predicate IsReferenceText(table: Table, c: Column, key: string, text: string) {
    IsStored(table, c, key) && c.name in table.mapping.columns && table.mapping.columns[c.name].isReference && Feeds(c, text)
  }

  /** Under this key: the value of the last column that is stored under it, or nothing. */
  ghost predicate PropertyIs(table: Table, row: seq<Column>, key: string, v: Option<Property>) {
    match v
    case Some(value) =>
      exists i :: 0 <= i < |row| && IsStored(table, row[i], key) && HasValue(row[i], value) && forall j :: i < j < |row| ==> !IsStored(table, row[j], key)
    case None => forall i :: 0 <= i < |row| ==> !IsStored(table, row[i], key)
  }

  /** Under this key: the text of the last reference column stored under it, in its template, or nothing. */
  ghost predicate ReferenceIs(table: Table, row: seq<Column>, key: string, r: Option<string>) {
    match r
    case Some(value) =>
      exists i, text ::
        && 0 <= i < |row| && IsReferenceText(table, row[i], key, text)
        && value == table.referenceOf(table.mapping.columns[row[i].name].referenceTemplate, text)
        && forall j, other :: i < j < |row| ==> !IsReferenceText(table, row[j], key, other)
    case None => forall i, text :: 0 <= i < |row| ==> !IsReferenceText(table, row[i], key, text)
  }

  /** The id made of the text of the last id column, or none. */
  ghost predicate IdIs(table: Table, row: seq<Column>, id: string) {
    || (exists i, text :: 0 <= i < |row| && IsIdText(table, row[i], text) && id == table.idOf(text) &&
                          forall j, other :: i < j < |row| ==> !IsIdText(table, row[j], other))
    || (id == "" && forall i, text :: 0 <= i < |row| ==> !IsIdText(table, row[i], text))
  }

  function At<V>(m: map<string, V>, key: string): Option<V> { if key in m then Some(m[key]) else None }

  /** The entity is the one the row describes; deleted it keeps only its id. */
  ghost predicate Describes(table: Table, row: seq<Column>, e: Entity) {
    && IdIs(table, row, e.id)
    && (e.deleted <==> exists i :: 0 <= i < |row| && row[i].name == "__$operation" && row[i].cell == IntCell(Some(1)))
    && (forall key ::
          if e.deleted then key !in e.properties && key !in e.references
          else PropertyIs(table, row, key, At(e.properties, key)) && ReferenceIs(table, row, key, At(e.references, key)))
  }

  // ---------------------------------------------------------------- the fold

  datatype Entity = Entity(id: string, deleted: bool, references: map<string, string>, properties: map<string, Property>)

  /** The loop over the columns so far, or the panic of a failed type assertion. */
  datatype Fold = Panic | Going(e: Entity)

  function Add(table: Table, e: Entity, c: Column): Fold {
    var isOperation := c.name == OPERATION;
    if isOperation && !c.cell.IntCell? then Panic
    else
      var e1 := if isOperation && c.cell.i == Some(1) then e.(deleted := true) else e;
      if !IsKept(table, c.name) then Going(e1)
      else match Extract(c.dbType, c.cell)
        case None => Panic
        case Some((value, text)) =>
          var key := KeyFor(table, c.name);
          var e2 := e1.(properties := e1.properties[key := value]);
          match MappingFor(table, c.name)
          case None => Going(e2)
          case Some(m) =>
            var e3 := if m.isIdColumn && text != "" then e2.(id := table.idOf(text)) else e2;
            Going(if m.isReference && text != "" then e3.(references := e3.references[key := table.referenceOf(m.referenceTemplate, text)]) else e3)
  }

  function FoldRow(table: Table, row: seq<Column>): Fold {
    if row == [] then Going(Entity("", false, map[], map[]))
    else match FoldRow(table, row[..|row| - 1])
      case Panic => Panic
      case Going(e) => Add(table, e, row[|row| - 1])
  }

  /** toEntity: a panic, no entity when there is no id, or the entity, emptied when it is deleted. */
  datatype Outcome = Panicked | NoEntity | Returned(e: Entity)

  function Finish(e: Entity): Outcome {
    var d := if e.deleted then e.(references := map[], properties := map[]) else e;
    if d.id == "" then NoEntity else Returned(d)
  }

  function OutcomeOf(table: Table, row: seq<Column>): Outcome {
    match FoldRow(table, row) case Panic => Panicked case Going(e) => Finish(e)
  }

  /** An operation column of a type that is not an integer. */
  predicate HasOddOperation(row: seq<Column>) {
    exists i :: 0 <= i < |row| && row[i].name == "__$operation" && row[i].dbType !in {"INT", "SMALLINT", "TINYINT"}
  }

  method ToEntity(table: Table, row: seq<Column>) returns (r: Outcome)
    ensures r == OutcomeOf(table, row)
    ensures r.Returned? ==> r.e.id != "" && Describes(table, row, r.e)
    ensures r.NoEntity? ==> IdIs(table, row, "")
    ensures Scanned(row) ==> (r.Panicked? <==> HasOddOperation(row))
  {
    EntityHasKeptColumns(table, row);
    hide Describes;
    hide IdIs;
    hide Scanned;
    hide HasOddOperation;
    hide Add;
    var entity := Entity("", false, map[], map[]);
    for i := 0 to |row|
      invariant FoldRow(table, row[..i]) == Going(entity)
    {
      var c := row[i];
      assert row[..i + 1][..i] == row[..i];
      var next := Add(table, entity, c);
      if next.Panic? {
        PanicStays(table, row, i + 1);
        return Panicked;
      }
      entity := next.e;
    }
    assert row[..|row|] == row;
    if entity.deleted {
      entity := entity.(properties := map[], references := map[]);
    }
    if entity.id == "" {
      return NoEntity;
    }
    return Returned(entity);
  }

  lemma {:induction false} PanicStays(table: Table, row: seq<Column>, n: nat)
    requires n <= |row| && FoldRow(table, row[..n]).Panic?
    ensures FoldRow(table, row).Panic?
    decreases |row|
  {
    if n < |row| {
      assert row[..|row| - 1][..n] == row[..n];
      PanicStays(table, row[..|row| - 1], n);
    } else {
      assert row[..n] == row;
    }
  }

  lemma IntCells(t: string, c: Cell)
    requires KindOf(c) == KindFor(t)
    ensures c.IntCell? <==> t in {"INT", "SMALLINT", "TINYINT"}
  {
  }

  /** A scanned row meets every type assertion exactly when its operation columns are integers. */
  lemma {:induction false} NoPanicIff(table: Table, row: seq<Column>)
    requires Scanned(row)
    ensures FoldRow(table, row).Panic? <==> HasOddOperation(row)
  {
    hide Extract;
    hide KindFor;
    hide IsKept;
    hide KeyFor;
    hide MappingFor;
    if row != [] {
      var init, c := row[..|row| - 1], row[|row| - 1];
      NoPanicIff(table, init);
      AssertionsHold(c.dbType, c.cell);
      IntCells(c.dbType, c.cell);
      assert forall i :: 0 <= i < |init| ==> row[i] == init[i];
      if i :| 0 <= i < |init| && init[i].name == "__$operation" && init[i].dbType !in {"INT", "SMALLINT", "TINYINT"} {
        assert row[i] == init[i];
      }
    }
  }

  /** The last kept column stored under a key. */
  function LastFor(table: Table, row: seq<Column>, key: string): Option<Column> {
    if row == [] then None
    else
      var c := row[|row| - 1];
      if StoredUnder(table, c, key) then Some(c) else LastFor(table, row[..|row| - 1], key)
  }

  predicate StoredUnder(table: Table, c: Column, key: string) { IsKept(table, c.name) && KeyFor(table, c.name) == key }

  lemma {:induction false} LastForFound(table: Table, row: seq<Column>, key: string) returns (i: nat)
    ensures LastFor(table, row, key).None? ==> forall j :: 0 <= j < |row| ==> !StoredUnder(table, row[j], key)
    ensures LastFor(table, row, key).Some? ==>
              i < |row| && row[i] == LastFor(table, row, key).value && StoredUnder(table, row[i], key) &&
              forall j :: i < j < |row| ==> !StoredUnder(table, row[j], key)
  {
    hide StoredUnder;
    i := 0;
    if row != [] {
      var init, last := row[..|row| - 1], row[|row| - 1];
      assert forall j :: 0 <= j < |init| ==> row[j] == init[j];
      if StoredUnder(table, last, key) {
        i := |init|;
      } else {
        i := LastForFound(table, init, key);
      }
    }
  }

  lemma {:induction false} PropertiesAt(table: Table, row: seq<Column>, key: string)
    requires FoldRow(table, row).Going?
    ensures var ps, last := FoldRow(table, row).e.properties, LastFor(table, row, key);
            (key in ps <==> last.Some?) &&
            (last.Some? ==> Extract(last.value.dbType, last.value.cell).Some? && ps[key] == Extract(last.value.dbType, last.value.cell).value.0)
  {
    hide Extract;
    if row != [] { PropertiesAt(table, row[..|row| - 1], key); }
  }

  predicate SaysDeleted(c: Column) { c.name == OPERATION && c.cell == IntCell(Some(1)) }

  lemma AddDeletes(table: Table, e: Entity, c: Column)
    requires Add(table, e, c).Going?
    ensures Add(table, e, c).e.deleted <==> e.deleted || SaysDeleted(c)
  {
    hide Extract;
    hide IsKept;
    hide KeyFor;
    hide MappingFor;
  }

  lemma {:induction false} DeletedIff(table: Table, row: seq<Column>)
    requires FoldRow(table, row).Going?
    ensures FoldRow(table, row).e.deleted <==> exists i :: 0 <= i < |row| && SaysDeleted(row[i])
  {
    hide SaysDeleted;
    hide Add;
    if row != [] {
      var init, last := row[..|row| - 1], row[|row| - 1];
      DeletedIff(table, init);
      AddDeletes(table, FoldRow(table, init).e, last);
      if i :| 0 <= i < |init| && SaysDeleted(init[i]) {
        assert SaysDeleted(row[i]);
      }
      if i :| 0 <= i < |row| && SaysDeleted(row[i]) {
        assert i < |init| ==> SaysDeleted(init[i]);
      }
    }
  }

  /** The text under which a kept column feeds an id or a reference; empty when it is NULL or of another type. */
  function TextOf(c: Column): string {
    match Extract(c.dbType, c.cell) case Some((_, text)) => text case None => ""
  }

  /** A kept column that is mapped as the id and has a text. */
  predicate GivesId(table: Table, c: Column) {
    IsKept(table, c.name) && TextOf(c) != "" && match MappingFor(table, c.name) case Some(m) => m.isIdColumn case None => false
  }

  /** A kept column that is mapped as a reference, is stored under this key and has a text. */
  predicate GivesReference(table: Table, c: Column, key: string) {
    StoredUnder(table, c, key) && TextOf(c) != "" && match MappingFor(table, c.name) case Some(m) => m.isReference case None => false
  }

  function TemplateOf(table: Table, c: Column): string {
    match MappingFor(table, c.name) case Some(m) => m.referenceTemplate case None => ""
  }

  /** Column i is the last one of the row with this property. */
  ghost predicate IsLast(row: seq<Column>, i: nat, p: Column -> bool)
    requires i < |row|
  {
    p(row[i]) && forall j :: i < j < |row| ==> !p(row[j])
  }

  lemma AddSets(table: Table, e: Entity, c: Column, key: string)
    requires Add(table, e, c).Going?
    ensures var e' := Add(table, e, c).e;
            && e'.id == (if GivesId(table, c) then table.idOf(TextOf(c)) else e.id)
            && (if GivesReference(table, c, key) then
                  key in e'.references && e'.references[key] == table.referenceOf(TemplateOf(table, c), TextOf(c))
                else (key in e'.references <==> key in e.references) && (key in e'.references ==> e'.references[key] == e.references[key]))
  {
    hide Extract;
    hide IsKept;
    hide KeyFor;
    hide MappingFor;
  }

  /** The last column that gives an id decides it; without one there is none. */
  lemma {:induction false} IdIsLast(table: Table, row: seq<Column>) returns (i: nat)
    requires FoldRow(table, row).Going?
    ensures var id := FoldRow(table, row).e.id;
            (i < |row| && IsLast(row, i, c => GivesId(table, c)) && id == table.idOf(TextOf(row[i]))) ||
            ((forall j :: 0 <= j < |row| ==> !GivesId(table, row[j])) && id == "")
  {
    hide Add;
    hide GivesId;
    hide TextOf;
    i := 0;
    if row != [] {
      var init, last := row[..|row| - 1], row[|row| - 1];
      i := IdIsLast(table, init);
      AddSets(table, FoldRow(table, init).e, last, "");
      assert forall j :: 0 <= j < |init| ==> row[j] == init[j];
      if GivesId(table, last) { i := |init|; }
    }
  }

  /** The last column that gives a reference under the key decides it; without one there is none. */
  lemma {:induction false} ReferenceIsLast(table: Table, row: seq<Column>, key: string) returns (i: nat)
    requires FoldRow(table, row).Going?
    ensures var refs := FoldRow(table, row).e.references;
            if key in refs then
              i < |row| && IsLast(row, i, c => GivesReference(table, c, key)) &&
              refs[key] == table.referenceOf(TemplateOf(table, row[i]), TextOf(row[i]))
            else forall j :: 0 <= j < |row| ==> !GivesReference(table, row[j], key)
  {
    hide Add;
    hide GivesReference;
    hide TemplateOf;
    hide TextOf;
    i := 0;
    if row != [] {
      var init, last := row[..|row| - 1], row[|row| - 1];
      i := ReferenceIsLast(table, init, key);
      AddSets(table, FoldRow(table, init).e, last, key);
      assert forall j :: 0 <= j < |init| ==> row[j] == init[j];
      if GivesReference(table, last, key) { i := |init|; }
    }
  }

  lemma StoredExact(table: Table, c: Column, key: string)
    ensures StoredUnder(table, c, key) <==> IsStored(table, c, key)
  {
  }

  lemma GivesIdExact(table: Table, c: Column, text: string)
    ensures IsIdText(table, c, text) <==> GivesId(table, c) && text == TextOf(c)
  {
    FeedExact(c, text);
    hide Feeds;
    hide TextOf;
  }

  lemma GivesReferenceExact(table: Table, c: Column, key: string, text: string)
    ensures IsReferenceText(table, c, key, text) <==> GivesReference(table, c, key) && text == TextOf(c)
    ensures IsReferenceText(table, c, key, text) ==> TemplateOf(table, c) == table.mapping.columns[c.name].referenceTemplate
  {
    FeedExact(c, text);
    StoredExact(table, c, key);
    hide Feeds;
    hide TextOf;
    hide IsStored;
    hide StoredUnder;
  }

  lemma {:induction false} IdDescribed(table: Table, row: seq<Column>)
    requires FoldRow(table, row).Going?
    ensures IdIs(table, row, FoldRow(table, row).e.id)
  {
    var i := IdIsLast(table, row);
    hide FoldRow;
    hide GivesId;
    hide TextOf;
    hide IsIdText;
    forall j, text | 0 <= j < |row| ensures IsIdText(table, row[j], text) <==> GivesId(table, row[j]) && text == TextOf(row[j]) {
      GivesIdExact(table, row[j], text);
    }
    if i < |row| { assert IsIdText(table, row[i], TextOf(row[i])) <==> GivesId(table, row[i]); }
  }

  lemma {:induction false} ReferenceDescribed(table: Table, row: seq<Column>, key: string)
    requires FoldRow(table, row).Going?
    ensures ReferenceIs(table, row, key, At(FoldRow(table, row).e.references, key))
  {
    var i := ReferenceIsLast(table, row, key);
    hide FoldRow;
    hide GivesReference;
    hide TemplateOf;
    hide TextOf;
    hide IsReferenceText;
    forall j, text | 0 <= j < |row|
      ensures IsReferenceText(table, row[j], key, text) <==> GivesReference(table, row[j], key) && text == TextOf(row[j])
    {
      GivesReferenceExact(table, row[j], key, text);
    }
    if i < |row| { GivesReferenceExact(table, row[i], key, TextOf(row[i])); }
  }

  lemma {:induction false} PropertyDescribed(table: Table, row: seq<Column>, key: string)
    requires FoldRow(table, row).Going?
    ensures PropertyIs(table, row, key, At(FoldRow(table, row).e.properties, key))
  {
    PropertiesAt(table, row, key);
    var i := LastForFound(table, row, key);
    hide FoldRow;
    hide LastFor;
    hide StoredUnder;
    hide IsStored;
    hide HasValue;
    hide Extract;
    forall j | 0 <= j < |row| ensures StoredUnder(table, row[j], key) <==> IsStored(table, row[j], key) { StoredExact(table, row[j], key); }
    if key in FoldRow(table, row).e.properties { ValueExact(row[i], FoldRow(table, row).e.properties[key]); }
  }

  /**
   * A returned entity is the one that its row describes: deleted iff an operation column says 1, and
   * otherwise with exactly the keys of kept columns and of reference columns, each decided by its last
   * column. Without an entity the row has no id.
   */
  lemma EntityHasKeptColumns(table: Table, row: seq<Column>)
    ensures var r := OutcomeOf(table, row);
            && (r.Returned? ==> r.e.id != "" && Describes(table, row, r.e))
            && (r.NoEntity? ==> IdIs(table, row, ""))
            && (Scanned(row) ==> (r.Panicked? <==> HasOddOperation(row)))
  {
    if Scanned(row) { NoPanicIff(table, row); }
    if FoldRow(table, row).Going? {
      var e := FoldRow(table, row).e;
      IdDescribed(table, row);
      DeletedIff(table, row);
      assert forall i :: 0 <= i < |row| ==> (SaysDeleted(row[i]) <==> row[i].name == "__$operation" && row[i].cell == IntCell(Some(1)));
      forall key ensures PropertyIs(table, row, key, At(e.properties, key)) && ReferenceIs(table, row, key, At(e.references, key)) {
        PropertyDescribed(table, row, key);
        ReferenceDescribed(table, row, key);
      }
      hide FoldRow;
      hide SaysDeleted;
      hide IdIs;
      hide PropertyIs;
      hide ReferenceIs;
      hide HasOddOperation;
      hide Scanned;
    }
  }

  /** BuildRowType allocates one cell a column, by its type. */
  method BuildRowType(types: seq<string>) returns (kinds: seq<Kind>)
    ensures |kinds| == |types|
    ensures forall i :: 0 <= i < |types| ==> kinds[i] == KindFor(types[i])
    ensures forall i :: 0 <= i < |types| ==>
              && (kinds[i] == IntKind <==> types[i] in {"INT", "SMALLINT", "TINYINT"})
              && (kinds[i] == StringKind <==> types[i] in {"VARCHAR", "NVARCHAR", "TEXT", "NTEXT"})
              && (kinds[i] == TimeKind <==> types[i] in {"DATETIME", "DATE", "TIMESTAMP"})
              && (kinds[i] == FloatKind <==> types[i] in {"MONEY", "DECIMAL", "FLOAT", "DOUBLE"})
              && (kinds[i] == BitKind <==> types[i] == "BIT")
  {
    kinds := [];
    for i := 0 to |types|
      invariant |kinds| == i
      invariant forall j :: 0 <= j < i ==> kinds[j] == KindFor(types[j])
    {
      var kind := RawKind;
      if types[i] in {"INT", "SMALLINT", "TINYINT"} {
        kind := IntKind;
      } else if types[i] in {"VARCHAR", "NVARCHAR", "TEXT", "NTEXT"} {
        kind := StringKind;
      } else if types[i] in {"DATETIME", "DATE", "TIMESTAMP"} {
        kind := TimeKind;
      } else if types[i] in {"MONEY", "DECIMAL", "FLOAT", "DOUBLE"} {
        kind := FloatKind;
      } else if types[i] == "BIT" {
        kind := BitKind;
      }
      kinds := kinds + [kind];
    }
  }
}
