/** `convertRowToJSONLD`: one CSV row, given as its (title, value) cells in
    header order, becomes one JSON-LD node. The specification functions below
    describe each step as the sequence of property assignments it performs;
    the method `ConvertRow` performs them with loops and is proved to agree. */
module RowMapper {
  import opened Json
  import opened Assignments
  import opened Template
  import opened Schema
  import opened Typing

  /** A JavaScript object with string values: its keys in insertion order and
      its contents. */
  datatype Record = Record(keys: seq<string>, values: map<string, string>)

  ghost predicate WellFormed(r: Record) {
    (forall i, j :: 0 <= i < j < |r.keys| ==> r.keys[i] != r.keys[j]) &&
    (forall k :: k in r.values <==> k in r.keys)
  }

  /** `obj[k] = v`: a key already present keeps its place, a new key goes last. */
  function Put(r: Record, k: string, v: string): Record {
    Record(if k in r.values then r.keys else r.keys + [k], r.values[k := v])
  }

  /** The internal row after the cells `row` have been stored, in order, under
      the internal names of their titles. */
  function InternalRow(index: map<string, string>, row: seq<(string, string)>): Record
    decreases |row|
  {
    if row == [] then Record([], map[])
    else
      var prev := InternalRow(index, row[..|row| - 1]);
      var cell := row[|row| - 1];
      Put(prev, ResolveTitle(index, cell.0), cell.1)
  }

  /** The internal row is a JavaScript object: its keys are distinct and are
      exactly the names it holds values for. */
  lemma {:induction false} InternalRowWellFormed(index: map<string, string>, row: seq<(string, string)>)
    ensures WellFormed(InternalRow(index, row))
    decreases |row|
  {
    if row != [] {
      InternalRowWellFormed(index, row[..|row| - 1]);
    }
  }

  /** The assignments `internalRow[columns[title]] = value`, one per cell. */
  function CellWrites(index: map<string, string>, row: seq<(string, string)>): seq<Option<(string, string)>> {
    seq(|row|, i requires 0 <= i < |row| => Some((ResolveTitle(index, row[i].0), row[i].1)))
  }

  /** The output key of an ordinary column: its `propertyUrl`, or the column
      name when that is falsy. */
  function OutputKey(c: Column, name: string): string {
    if Given(c.propertyUrl) then c.propertyUrl.value else name
  }

  /** The value of an ordinary column: a reference built from its `valueUrl`
      when it has one, whatever the cell holds, and the typed cell otherwise. */
  function ColumnValue(c: Column, cell: string, values: map<string, string>): Json {
    if Given(c.valueUrl) then IdRef(Expand(c.valueUrl.value, values)) else ConvertType(cell, c.dataType)
  }

  /** The assignment `result[propertyUrl] = objectValue` that the internal
      column `name` makes, if any: none when no column has that name or the
      first one that has it suppresses its output. */
  function OrdinaryWrite(cols: seq<Column>, values: map<string, string>, name: string, cell: string): Option<(string, Json)> {
    match FindColumn(cols, name)
    case None => None
    case Some(c) => if c.suppressOutput then None else Some((OutputKey(c, name), ColumnValue(c, cell, values)))
  }

  /** The ordinary-column assignments, in the internal row's key order. */
  function OrdinaryWrites(cols: seq<Column>, r: Record): seq<Option<(string, Json)>>
    requires WellFormed(r)
  {
    seq(|r.keys|, i requires 0 <= i < |r.keys| => OrdinaryWrite(cols, r.values, r.keys[i], r.values[r.keys[i]]))
  }

  /** The table-level `aboutUrl` step: `@id` becomes the expanded template;
      nothing else changes, and without `aboutUrl` nothing does. */
  function WithId(node: map<string, Json>, aboutUrl: Option<string>, values: map<string, string>): map<string, Json> {
    if Given(aboutUrl) then node["@id" := Str(Expand(aboutUrl.value, values))] else node
  }

  /** What the virtual-column passes work on: the node and the `lookups`
      table from an expanded `valueUrl` to the `propertyUrl` (possibly
      undefined) whose object it identifies. */
  datatype State = State(node: map<string, Json>, lookups: map<string, Option<string>>)

  /** The `TypeError` thrown when a virtual column has no `valueUrl`. */
  datatype Error = MissingValueUrl(column: string)

  /** Pass 1 handles virtual columns without a truthy `aboutUrl`; pass 2 those with one. */
  datatype Phase = Creating | Attaching

  predicate InPhase(phase: Phase, c: Column) {
    c.virtual && (if phase == Creating then !Given(c.aboutUrl) else Given(c.aboutUrl))
  }

  /** `result[virtualColumn.propertyUrl]`: an absent `propertyUrl` is the key "undefined". */
  function VirtualKey(c: Column): string {
    if c.propertyUrl.Some? then c.propertyUrl.value else Undefined
  }

  /** Pass 1 on one column: the node gets `{@id: expanded valueUrl}` under the
      column's property, and `lookups` records which property that is. */
  function CreateStep(st: State, c: Column, values: map<string, string>): Result<State, Error> {
    if !InPhase(Creating, c) then Success(st)
    else if c.valueUrl.None? then Failure(MissingValueUrl(c.name))
    else
      var u := Expand(c.valueUrl.value, values);
      Success(State(st.node[VirtualKey(c) := IdRef(u)], st.lookups[u := c.propertyUrl]))
  }

  /** The property that a pass-2 write into the object recorded for `about`
      goes to, when `lookups` has a truthy entry for it. */
  function Target(lookups: map<string, Option<string>>, about: string): Option<string> {
    if about in lookups && Given(lookups[about]) then Some(lookups[about].value) else None
  }

  /** Pass 2 on one column: the expanded `valueUrl`, as a plain string, goes
      into the object recorded in `lookups` for the expanded `aboutUrl`, or to
      the top level of the node when there is none. Writing a property into a
      string does nothing in JavaScript's sloppy mode. A target absent from
      the node would make JavaScript throw a `TypeError`; this branch returns
      the state unchanged only because it is unreachable in a row conversion:
      `AttachTargetsPresent` proves every truthy lookup names a node key. */
  function AttachStep(st: State, c: Column, values: map<string, string>): Result<State, Error>
  {
    if !InPhase(Attaching, c) then Success(st)
    else
      var about := Expand(c.aboutUrl.value, values);
      if c.valueUrl.None? then Failure(MissingValueUrl(c.name))
      else
        var v := Expand(c.valueUrl.value, values);
        match Target(st.lookups, about)
        case Some(t) =>
          if t in st.node && st.node[t].Obj? then
            Success(State(st.node[t := Obj(st.node[t].fields[VirtualKey(c) := Str(v)])], st.lookups))
          else Success(st)
        case None => Success(State(st.node[VirtualKey(c) := Str(v)], st.lookups))
  }

  function Step(phase: Phase, st: State, c: Column, values: map<string, string>): Result<State, Error> {
    if phase == Creating then CreateStep(st, c, values) else AttachStep(st, c, values)
  }

  /** Pass 2 on one column never changes `lookups`, never removes a key, and
      changes at most one key of the node: the recorded target, or the
      column's own property when nothing is recorded for its `aboutUrl`. */
  lemma AttachStepFrame(st: State, c: Column, values: map<string, string>)
    requires AttachStep(st, c, values).Success?
    ensures AttachStep(st, c, values).value.lookups == st.lookups
    ensures forall k :: k in st.node ==> k in AttachStep(st, c, values).value.node
    ensures InPhase(Attaching, c) ==>
              var about := Expand(c.aboutUrl.value, values);
              var touched := if Target(st.lookups, about).Some? then Target(st.lookups, about).value else VirtualKey(c);
              forall k :: k != touched ==>
                            ((k in AttachStep(st, c, values).value.node <==> k in st.node) &&
                             (k in st.node ==> AttachStep(st, c, values).value.node[k] == st.node[k]))
  {
  }

  /** One pass over the columns `cols`, in order; the first error ends it. */
  function Pass(phase: Phase, cols: seq<Column>, values: map<string, string>, st: State): Result<State, Error>
    decreases |cols|
  {
    if cols == [] then Success(st)
    else
      match Pass(phase, cols[..|cols| - 1], values, st)
      case Failure(e) => Failure(e)
      case Success(s) => Step(phase, s, cols[|cols| - 1], values)
  }

  /** The node before the virtual columns: ordinary columns, then `@id`. */
  function PrimaryNode(schema: TableSchema, index: map<string, string>, row: seq<(string, string)>): map<string, Json> {
    InternalRowWellFormed(index, row);
    var internal := InternalRow(index, row);
    WithId(Assign(map[], OrdinaryWrites(schema.columns, internal)), schema.aboutUrl, internal.values)
  }

  /** `convertRowToJSONLD(row)`: the node, or the error that aborts it. */
  function ConvertRowSpec(schema: TableSchema, index: map<string, string>, row: seq<(string, string)>): Result<map<string, Json>, Error> {
    var values := InternalRow(index, row).values;
    match Pass(Creating, schema.columns, values, State(PrimaryNode(schema, index, row), map[]))
    case Failure(e) => Failure(e)
    case Success(s1) =>
      match Pass(Attaching, schema.columns, values, s1)
      case Failure(e) => Failure(e)
      case Success(s2) => Success(s2.node)
  }

  /** Once a pass has failed on a prefix of the columns, it fails with that
      error on the whole list. */
  lemma {:induction false} PassFailureSticks(phase: Phase, cols: seq<Column>, values: map<string, string>, st: State, i: nat)
    requires i <= |cols|
    requires Pass(phase, cols[..i], values, st).Failure?
    ensures Pass(phase, cols, values, st) == Pass(phase, cols[..i], values, st)
    decreases |cols|
  {
    if i < |cols| {
      var n := |cols| - 1;
      assert cols[..n][..i] == cols[..i];
      PassFailureSticks(phase, cols[..n], values, st, i);
    } else {
      assert cols[..i] == cols;
    }
  }

  /** Converts the row data to the internal format. */
  method ReadCells(index: map<string, string>, row: seq<(string, string)>) returns (internal: Record)
    ensures internal == InternalRow(index, row)
    ensures WellFormed(internal)
  {
    internal := Record([], map[]);
    for i := 0 to |row|
      invariant internal == InternalRow(index, row[..i])
    {
      var (title, value) := row[i];
      internal := Put(internal, ResolveTitle(index, title), value);
      assert row[..i + 1][..i] == row[..i];
    }
    assert row[..|row|] == row;
    InternalRowWellFormed(index, row);
  }

  /** The loop over the internal row's keys that fills in the ordinary columns. */
  method MapColumns(cols: seq<Column>, internal: Record) returns (result: map<string, Json>)
    requires WellFormed(internal)
    ensures result == Assign(map[], OrdinaryWrites(cols, internal))
  {
    result := map[];
    ghost var ws := OrdinaryWrites(cols, internal);
    for i := 0 to |internal.keys|
      invariant result == Assign(map[], ws[..i])
    {
      var name := internal.keys[i];
      ghost var w := OrdinaryWrite(cols, internal.values, name, internal.values[name]);
      assert ws[i] == w;
      AssignStep(map[], ws, i);
      var definition := FindColumn(cols, name);
      if definition.Some? {
        var column := definition.value;
        var key := OutputKey(column, name);
        var objectValue := ColumnValue(column, internal.values[name], internal.values);
        if !column.suppressOutput {
          result := result[key := objectValue];
        }
      }
    }
    assert ws[..|internal.keys|] == ws;
  }

  /** Pass 1: virtual columns without a truthy `aboutUrl` create objects. */
  method CreateObjects(cols: seq<Column>, values: map<string, string>, node: map<string, Json>)
    returns (r: Result<State, Error>)
    ensures r == Pass(Creating, cols, values, State(node, map[]))
  {
    ghost var start := State(node, map[]);
    var result := node;
    var lookups: map<string, Option<string>> := map[];
    for i := 0 to |cols|
      invariant Pass(Creating, cols[..i], values, start) == Success(State(result, lookups))
    {
      var column := cols[i];
      assert cols[..i + 1][..i] == cols[..i];
      if column.virtual && !Given(column.aboutUrl) {
        if column.valueUrl.None? {
          PassFailureSticks(Creating, cols, values, start, i + 1);
          return Failure(MissingValueUrl(column.name));
        }
        var valueUrl := Expand(column.valueUrl.value, values);
        result := result[VirtualKey(column) := IdRef(valueUrl)];
        lookups := lookups[valueUrl := column.propertyUrl];
      }
    }
    assert cols[..|cols|] == cols;
    r := Success(State(result, lookups));
  }

  /** Pass 2: virtual columns with a truthy `aboutUrl` add properties. */
  method AttachProperties(cols: seq<Column>, values: map<string, string>, st: State)
    returns (r: Result<State, Error>)
    ensures r == Pass(Attaching, cols, values, st)
  {
    var result := st.node;
    var lookups := st.lookups;
    for i := 0 to |cols|
      invariant lookups == st.lookups
      invariant Pass(Attaching, cols[..i], values, st) == Success(State(result, lookups))
    {
      var column := cols[i];
      assert cols[..i + 1][..i] == cols[..i];
      if column.virtual && Given(column.aboutUrl) {
        var aboutUrl := Expand(column.aboutUrl.value, values);
        if column.valueUrl.None? {
          PassFailureSticks(Attaching, cols, values, st, i + 1);
          return Failure(MissingValueUrl(column.name));
        }
        var valueUrl := Expand(column.valueUrl.value, values);
        if aboutUrl in lookups && Given(lookups[aboutUrl]) {
          var target := lookups[aboutUrl].value;
          if target in result && result[target].Obj? {
            result := result[target := Obj(result[target].fields[VirtualKey(column) := Str(valueUrl)])];
          }
        } else {
          result := result[VirtualKey(column) := Str(valueUrl)];
        }
      }
    }
    assert cols[..|cols|] == cols;
    r := Success(State(result, lookups));
  }

  /** `convertRowToJSONLD(row)`. */
  method ConvertRow(schema: TableSchema, index: map<string, string>, row: seq<(string, string)>)
    returns (r: Result<map<string, Json>, Error>)
    ensures r == ConvertRowSpec(schema, index, row)
  {
    var internal := ReadCells(index, row);
    var result := MapColumns(schema.columns, internal);
    // Add the row identifier
    if Given(schema.aboutUrl) {
      result := result["@id" := Str(Expand(schema.aboutUrl.value, internal.values))];
    }
    assert result == PrimaryNode(schema, index, row);
    var created := CreateObjects(schema.columns, internal.values, result);
    if created.Failure? {
      return Failure(created.error);
    }
    var attached := AttachProperties(schema.columns, internal.values, created.value);
    if attached.Failure? {
      return Failure(attached.error);
    }
    r := Success(attached.value.node);
  }

  // Properties of the cell copy

  /** The internal row's contents are the assignments of the cells, in order. */
  lemma {:induction false} InternalRowValues(index: map<string, string>, row: seq<(string, string)>)
    ensures InternalRow(index, row).values == Assign(map[], CellWrites(index, row))
    decreases |row|
  {
    if row != [] {
      var n := |row| - 1;
      InternalRowValues(index, row[..n]);
      assert CellWrites(index, row)[..n] == CellWrites(index, row[..n]);
    }
  }

  /** An internal name holds a value iff some cell's title resolves to it, and
      it holds the value of the last such cell: when two titles (or two unknown
      titles, both stored under "undefined") lead to the same column, the later
      cell wins. */
  lemma CellsLastWins(index: map<string, string>, row: seq<(string, string)>, name: string)
    ensures name in InternalRow(index, row).values <==>
              exists i :: 0 <= i < |row| && ResolveTitle(index, row[i].0) == name
    ensures forall i :: 0 <= i < |row| && ResolveTitle(index, row[i].0) == name &&
                        (forall j :: i < j < |row| ==> ResolveTitle(index, row[j].0) != name) ==>
                        name in InternalRow(index, row).values && InternalRow(index, row).values[name] == row[i].1
  {
    var ws := CellWrites(index, row);
    InternalRowValues(index, row);
    AssignAt(map[], ws, name);
    assert forall i :: 0 <= i < |row| ==> ws[i] == Some((ResolveTitle(index, row[i].0), row[i].1));
    forall i | 0 <= i < |row| && ResolveTitle(index, row[i].0) == name &&
               (forall j :: i < j < |row| ==> ResolveTitle(index, row[j].0) != name)
      ensures LastWriteAt(ws, i, name)
    {
    }
  }

  // Properties of the ordinary columns

  /** The internal column `name` writes output key `p`: it is defined, not
      suppressed, and `p` is its `propertyUrl` or, failing that, its name. */
  predicate Emits(cols: seq<Column>, name: string, p: string) {
    FindColumn(cols, name).Some? && !FindColumn(cols, name).value.suppressOutput &&
    OutputKey(FindColumn(cols, name).value, name) == p
  }

  /** The step that internal column `i` contributes to the ordinary part of
      the node writes key `p` iff that column emits `p`, and then writes its
      `valueUrl` reference or its typed cell. */
  lemma OrdinaryWritesAt(cols: seq<Column>, r: Record, p: string)
    requires WellFormed(r)
    ensures forall i :: 0 <= i < |r.keys| ==> (Writes(OrdinaryWrites(cols, r)[i], p) <==> Emits(cols, r.keys[i], p))
    ensures forall i :: 0 <= i < |r.keys| && Writes(OrdinaryWrites(cols, r)[i], p) ==>
                        OrdinaryWrites(cols, r)[i].value.1 ==
                          ColumnValue(FindColumn(cols, r.keys[i]).value, r.values[r.keys[i]], r.values)
  {
    var ws := OrdinaryWrites(cols, r);
    forall i | 0 <= i < |r.keys|
      ensures Writes(ws[i], p) <==> Emits(cols, r.keys[i], p)
      ensures Writes(ws[i], p) ==> ws[i].value.1 == ColumnValue(FindColumn(cols, r.keys[i]).value, r.values[r.keys[i]], r.values)
    {
      assert ws[i] == OrdinaryWrite(cols, r.values, r.keys[i], r.values[r.keys[i]]);
    }
  }

  /** Key `p` of the ordinary part of the node is present iff some internal
      column emits it. */
  lemma OrdinaryKeys(cols: seq<Column>, r: Record, p: string)
    requires WellFormed(r)
    ensures p in Assign(map[], OrdinaryWrites(cols, r)) <==> exists i :: 0 <= i < |r.keys| && Emits(cols, r.keys[i], p)
  {
    AssignAt(map[], OrdinaryWrites(cols, r), p);
    OrdinaryWritesAt(cols, r, p);
  }

  /** Key `p` of the ordinary part of the node holds the value of the last
      internal column (in key order) that emits it: its `valueUrl` reference
      or its typed cell. */
  lemma OrdinaryValues(cols: seq<Column>, r: Record, p: string)
    requires WellFormed(r)
    ensures forall i :: 0 <= i < |r.keys| && Emits(cols, r.keys[i], p) &&
                        (forall j :: i < j < |r.keys| ==> !Emits(cols, r.keys[j], p)) ==>
                        p in Assign(map[], OrdinaryWrites(cols, r)) &&
                        Assign(map[], OrdinaryWrites(cols, r))[p] ==
                          ColumnValue(FindColumn(cols, r.keys[i]).value, r.values[r.keys[i]], r.values)
  {
    var ws := OrdinaryWrites(cols, r);
    AssignAt(map[], ws, p);
    OrdinaryWritesAt(cols, r, p);
    forall i | 0 <= i < |r.keys| && Emits(cols, r.keys[i], p) &&
               (forall j :: i < j < |r.keys| ==> !Emits(cols, r.keys[j], p))
      ensures LastWriteAt(ws, i, p)
    {
    }
  }

  // Properties of the virtual-column passes

  /** Column `c` is handled by `phase` and has no `valueUrl`, so that
      `processValueUrl(undefined, ...)` throws. */
  predicate Missing(phase: Phase, c: Column) {
    InPhase(phase, c) && c.valueUrl.None?
  }

  /** A pass fails iff one of its columns has no `valueUrl`, and the error names
      the first such column. */
  lemma {:induction false} PassFails(phase: Phase, cols: seq<Column>, values: map<string, string>, st: State)
    ensures Pass(phase, cols, values, st).Failure? <==> exists i :: 0 <= i < |cols| && Missing(phase, cols[i])
    ensures Pass(phase, cols, values, st).Failure? ==>
              exists i :: 0 <= i < |cols| && Missing(phase, cols[i]) &&
                          Pass(phase, cols, values, st).error == MissingValueUrl(cols[i].name) &&
                          forall j :: 0 <= j < i ==> !Missing(phase, cols[j])
    decreases |cols|
  {
    if cols != [] {
      var n := |cols| - 1;
      var pre := cols[..n];
      PassFails(phase, pre, values, st);
      assert forall i :: 0 <= i < n ==> pre[i] == cols[i];
      if Pass(phase, pre, values, st).Success? {
        var s := Pass(phase, pre, values, st).value;
        assert Pass(phase, cols, values, st) == Step(phase, s, cols[n], values);
        assert Step(phase, s, cols[n], values).Failure? <==> Missing(phase, cols[n]);
        if Missing(phase, cols[n]) {
          assert Step(phase, s, cols[n], values).error == MissingValueUrl(cols[n].name);
        }
      }
    }
  }

  /** A row fails to convert iff some virtual column has no `valueUrl`; what
      the row holds plays no part. */
  lemma ConvertRowFails(schema: TableSchema, index: map<string, string>, row: seq<(string, string)>)
    ensures ConvertRowSpec(schema, index, row).Failure? <==>
              exists i :: 0 <= i < |schema.columns| && schema.columns[i].virtual && schema.columns[i].valueUrl.None?
  {
    var cols := schema.columns;
    var internal := InternalRow(index, row);
    var start := State(PrimaryNode(schema, index, row), map[]);
    PassFails(Creating, cols, internal.values, start);
    assert forall i :: 0 <= i < |cols| && cols[i].virtual && cols[i].valueUrl.None? ==>
                         Missing(Creating, cols[i]) || Missing(Attaching, cols[i]);
    if Pass(Creating, cols, internal.values, start).Success? {
      PassFails(Attaching, cols, internal.values, Pass(Creating, cols, internal.values, start).value);
    }
  }

  /** Pass 1 on column `c` performs `result[propertyUrl] = {"@id": u}`. */
  function CreateWrite(c: Column, values: map<string, string>): Option<(string, Json)> {
    if InPhase(Creating, c) && c.valueUrl.Some? then Some((VirtualKey(c), IdRef(Expand(c.valueUrl.value, values))))
    else None
  }

  /** Pass 1 on column `c` performs `lookups[u] = propertyUrl`. */
  function LookupWrite(c: Column, values: map<string, string>): Option<(string, Option<string>)> {
    if InPhase(Creating, c) && c.valueUrl.Some? then Some((Expand(c.valueUrl.value, values), c.propertyUrl))
    else None
  }

  function CreateWrites(cols: seq<Column>, values: map<string, string>): seq<Option<(string, Json)>> {
    seq(|cols|, i requires 0 <= i < |cols| => CreateWrite(cols[i], values))
  }

  function LookupWrites(cols: seq<Column>, values: map<string, string>): seq<Option<(string, Option<string>)>> {
    seq(|cols|, i requires 0 <= i < |cols| => LookupWrite(cols[i], values))
  }

  /** A successful pass 1 is two independent folds of assignments: one into
      the node and one into `lookups`. */
  lemma {:induction false} CreatePassAssigns(cols: seq<Column>, values: map<string, string>, st: State)
    requires Pass(Creating, cols, values, st).Success?
    ensures Pass(Creating, cols, values, st).value ==
              State(Assign(st.node, CreateWrites(cols, values)), Assign(st.lookups, LookupWrites(cols, values)))
    decreases |cols|
  {
    if cols != [] {
      var n := |cols| - 1;
      var pre := cols[..n];
      CreatePassAssigns(pre, values, st);
      assert CreateWrites(cols, values)[..n] == CreateWrites(pre, values);
      assert LookupWrites(cols, values)[..n] == LookupWrites(pre, values);
      assert Pass(Creating, cols, values, st) == CreateStep(Pass(Creating, pre, values, st).value, cols[n], values);
    }
  }

  /** Column `c` creates, in pass 1, an object under key `p`. */
  predicate Creates(c: Column, p: string) {
    InPhase(Creating, c) && c.valueUrl.Some? && VirtualKey(c) == p
  }

  /** Column `c` records, in pass 1, the identifier `u`. */
  predicate Records(c: Column, values: map<string, string>, u: string) {
    InPhase(Creating, c) && c.valueUrl.Some? && Expand(c.valueUrl.value, values) == u
  }

  /** After pass 1, key `p` holds the reference built by the last creating
      column with property `p`; a key no creating column writes is as before. */
  lemma CreatedNode(cols: seq<Column>, values: map<string, string>, node: map<string, Json>, p: string)
    requires Pass(Creating, cols, values, State(node, map[])).Success?
    ensures var s := Pass(Creating, cols, values, State(node, map[])).value;
            (p in s.node <==> p in node || exists i :: 0 <= i < |cols| && Creates(cols[i], p)) &&
            (forall i :: 0 <= i < |cols| && Creates(cols[i], p) &&
                         (forall j :: i < j < |cols| ==> !Creates(cols[j], p)) ==>
                         p in s.node && s.node[p] == IdRef(Expand(cols[i].valueUrl.value, values))) &&
            ((forall i :: 0 <= i < |cols| ==> !Creates(cols[i], p)) && p in node ==>
                         p in s.node && s.node[p] == node[p])
  {
    var cw := CreateWrites(cols, values);
    CreatePassAssigns(cols, values, State(node, map[]));
    AssignAt(node, cw, p);
    forall i | 0 <= i < |cols|
      ensures Writes(cw[i], p) <==> Creates(cols[i], p)
      ensures Writes(cw[i], p) ==> cw[i].value.1 == IdRef(Expand(cols[i].valueUrl.value, values))
    {
      assert cw[i] == CreateWrite(cols[i], values);
    }
    forall i | 0 <= i < |cols| && Creates(cols[i], p) && (forall j :: i < j < |cols| ==> !Creates(cols[j], p))
      ensures LastWriteAt(cw, i, p)
    {
    }
  }

  /** After pass 1, `lookups[u]` is present iff some creating column's
      `valueUrl` expands to `u`, and it is the `propertyUrl` of the last one. */
  lemma CreatedLookups(cols: seq<Column>, values: map<string, string>, node: map<string, Json>, u: string)
    requires Pass(Creating, cols, values, State(node, map[])).Success?
    ensures var s := Pass(Creating, cols, values, State(node, map[])).value;
            (u in s.lookups <==> exists i :: 0 <= i < |cols| && Records(cols[i], values, u)) &&
            (forall i :: 0 <= i < |cols| && Records(cols[i], values, u) &&
                         (forall j :: i < j < |cols| ==> !Records(cols[j], values, u)) ==>
                         u in s.lookups && s.lookups[u] == cols[i].propertyUrl)
  {
    var lw := LookupWrites(cols, values);
    CreatePassAssigns(cols, values, State(node, map[]));
    AssignAt(map[], lw, u);
    forall i | 0 <= i < |cols|
      ensures Writes(lw[i], u) <==> Records(cols[i], values, u)
      ensures Writes(lw[i], u) ==> lw[i].value.1 == cols[i].propertyUrl
    {
      assert lw[i] == LookupWrite(cols[i], values);
    }
    forall i | 0 <= i < |cols| && Records(cols[i], values, u) && (forall j :: i < j < |cols| ==> !Records(cols[j], values, u))
      ensures LastWriteAt(lw, i, u)
    {
    }
  }

  /** Every truthy entry of `lookups` names a key of the node. */
  ghost predicate TargetsPresent(st: State) {
    forall u :: u in st.lookups && Given(st.lookups[u]) ==> st.lookups[u].value in st.node
  }

  /** After pass 1 every truthy entry of `lookups` names a key that holds an
      object. */
  lemma CreatedTargets(cols: seq<Column>, values: map<string, string>, node: map<string, Json>)
    requires Pass(Creating, cols, values, State(node, map[])).Success?
    ensures var s := Pass(Creating, cols, values, State(node, map[])).value;
            forall u :: u in s.lookups && Given(s.lookups[u]) ==> s.lookups[u].value in s.node && s.node[s.lookups[u].value].Obj?
    ensures var s := Pass(Creating, cols, values, State(node, map[])).value;
            forall u :: u in s.lookups && Given(s.lookups[u]) ==>
                          exists i :: 0 <= i < |cols| && Creates(cols[i], s.lookups[u].value)
  {
    var s := Pass(Creating, cols, values, State(node, map[])).value;
    var cw := CreateWrites(cols, values);
    var lw := LookupWrites(cols, values);
    CreatePassAssigns(cols, values, State(node, map[]));
    forall u | u in s.lookups && Given(s.lookups[u])
      ensures s.lookups[u].value in s.node && s.node[s.lookups[u].value].Obj?
      ensures exists i :: 0 <= i < |cols| && Creates(cols[i], s.lookups[u].value)
    {
      AssignAt(map[], lw, u);
      LastWriteExists(lw, u);
      var i :| LastWriteAt(lw, i, u);
      var p := s.lookups[u].value;
      assert lw[i] == LookupWrite(cols[i], values);
      assert cols[i].propertyUrl == Some(p);
      assert cw[i] == CreateWrite(cols[i], values);
      assert Writes(cw[i], p);
      assert Creates(cols[i], p);
      AssignAt(node, cw, p);
      LastWriteExists(cw, p);
      var j :| LastWriteAt(cw, j, p);
      assert cw[j] == CreateWrite(cols[j], values);
      assert s.node[p] == cw[j].value.1;
    }
  }

  /** Pass 2 never changes `lookups` and never removes a key from the node. */
  lemma {:induction false} AttachPassFrame(cols: seq<Column>, values: map<string, string>, st: State)
    requires Pass(Attaching, cols, values, st).Success?
    ensures Pass(Attaching, cols, values, st).value.lookups == st.lookups
    ensures forall k :: k in st.node ==> k in Pass(Attaching, cols, values, st).value.node
    decreases |cols|
  {
    if cols != [] {
      var n := |cols| - 1;
      AttachPassFrame(cols[..n], values, st);
      var s := Pass(Attaching, cols[..n], values, st).value;
      AttachStepFrame(s, cols[n], values);
    }
  }

  /** Whenever pass 2 reaches `result[lookups[aboutUrl]][propertyUrl] = ...`,
      `result[lookups[aboutUrl]]` is defined, so the `TypeError` of writing into
      `undefined` cannot arise; only a value that pass 2 itself has turned
      into a string can make that write do nothing. */
  lemma AttachTargetsPresent(schema: TableSchema, index: map<string, string>, row: seq<(string, string)>, i: nat)
    requires i <= |schema.columns|
    requires Pass(Creating, schema.columns, InternalRow(index, row).values,
                  State(PrimaryNode(schema, index, row), map[])).Success?
    requires Pass(Attaching, schema.columns[..i], InternalRow(index, row).values,
                  Pass(Creating, schema.columns, InternalRow(index, row).values,
                       State(PrimaryNode(schema, index, row), map[])).value).Success?
    ensures TargetsPresent(Pass(Attaching, schema.columns[..i], InternalRow(index, row).values,
                                Pass(Creating, schema.columns, InternalRow(index, row).values,
                                     State(PrimaryNode(schema, index, row), map[])).value).value)
  {
    var values := InternalRow(index, row).values;
    var node := PrimaryNode(schema, index, row);
    CreatedTargets(schema.columns, values, node);
    AttachPassFrame(schema.columns[..i], values, Pass(Creating, schema.columns, values, State(node, map[])).value);
  }

  /** Without a truthy table `aboutUrl` no `@id` is added: the node before
      the virtual columns has an `@id` only if an ordinary column emits one. */
  lemma NoRowIdentifier(schema: TableSchema, index: map<string, string>, row: seq<(string, string)>, internal: Record)
    requires !Given(schema.aboutUrl)
    requires internal == InternalRow(index, row)
    ensures "@id" in PrimaryNode(schema, index, row) <==>
              exists i :: 0 <= i < |internal.keys| && Emits(schema.columns, internal.keys[i], "@id")
  {
    InternalRowWellFormed(index, row);
    var node := Assign(map[], OrdinaryWrites(schema.columns, internal));
    assert PrimaryNode(schema, index, row) == node;
    OrdinaryKeys(schema.columns, internal, "@id");
  }

  /** Pass 2 leaves alone a key that is neither the property of an attaching
      column nor the target of an entry of `lookups`. */
  lemma {:induction false} AttachPassKeeps(cols: seq<Column>, values: map<string, string>, st: State, k: string)
    requires Pass(Attaching, cols, values, st).Success?
    requires forall i :: 0 <= i < |cols| && InPhase(Attaching, cols[i]) ==> VirtualKey(cols[i]) != k
    requires forall u :: u in st.lookups && Given(st.lookups[u]) ==> st.lookups[u].value != k
    ensures k in Pass(Attaching, cols, values, st).value.node <==> k in st.node
    ensures k in st.node ==> Pass(Attaching, cols, values, st).value.node[k] == st.node[k]
    decreases |cols|
  {
    if cols != [] {
      var n := |cols| - 1;
      var pre := cols[..n];
      assert forall i :: 0 <= i < n ==> pre[i] == cols[i];
      AttachPassKeeps(pre, values, st, k);
      AttachPassFrame(pre, values, st);
      var s := Pass(Attaching, pre, values, st).value;
      AttachStepFrame(s, cols[n], values);
    }
  }

  /** The row's `@id` is the table's `aboutUrl` expanded against the row,
      provided no virtual column has `@id` as its property. */
  lemma RowIdentifier(schema: TableSchema, index: map<string, string>, row: seq<(string, string)>)
    requires Given(schema.aboutUrl)
    requires forall i :: 0 <= i < |schema.columns| && schema.columns[i].virtual ==> VirtualKey(schema.columns[i]) != "@id"
    requires ConvertRowSpec(schema, index, row).Success?
    ensures "@id" in ConvertRowSpec(schema, index, row).value
    ensures ConvertRowSpec(schema, index, row).value["@id"] == Str(Expand(schema.aboutUrl.value, InternalRow(index, row).values))
  {
    var cols := schema.columns;
    var values := InternalRow(index, row).values;
    var node := PrimaryNode(schema, index, row);
    var id := Str(Expand(schema.aboutUrl.value, values));
    assert "@id" in node && node["@id"] == id;
    var s1 := Pass(Creating, cols, values, State(node, map[])).value;
    CreatedNode(cols, values, node, "@id");
    assert "@id" in s1.node && s1.node["@id"] == id;
    CreatedTargets(cols, values, node);
    AttachPassKeeps(cols, values, s1, "@id");
  }

  /** Pass 2 on a column whose expanded `aboutUrl` is recorded in `lookups`
      under a key holding an object sets the column's property inside that
      object, to the expanded `valueUrl`, and changes nothing else. */
  lemma AttachInto(st: State, c: Column, values: map<string, string>, t: string)
    requires InPhase(Attaching, c) && c.valueUrl.Some?
    requires Target(st.lookups, Expand(c.aboutUrl.value, values)) == Some(t)
    requires t in st.node && st.node[t].Obj?
    ensures AttachStep(st, c, values) ==
              Success(State(st.node[t := Obj(st.node[t].fields[VirtualKey(c) := Str(Expand(c.valueUrl.value, values))])], st.lookups))
  {
  }

  /** Pass 2 on a column whose expanded `aboutUrl` has no truthy entry in
      `lookups` stores the expanded `valueUrl`, as a plain string, at the top
      level under the column's property. */
  lemma AttachTopLevel(st: State, c: Column, values: map<string, string>)
    requires InPhase(Attaching, c) && c.valueUrl.Some?
    requires Target(st.lookups, Expand(c.aboutUrl.value, values)).None?
    ensures AttachStep(st, c, values) ==
              Success(State(st.node[VirtualKey(c) := Str(Expand(c.valueUrl.value, values))], st.lookups))
  {
  }
}
