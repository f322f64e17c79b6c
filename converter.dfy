/** The conversion as a whole: the title index and the property labels are
    built from the schema, every CSV row is converted in file order, and the
    converted rows are wrapped in the output envelope. */
module Converter {
  import opened Json
  import opened Assignments
  import opened Schema
  import opened Metadata
  import opened RowMapper

  /** The `data` handler: each row's node is pushed onto `results` in the
      order the rows arrive; a row whose conversion throws ends the run. */
  method ConvertRows(schema: TableSchema, index: map<string, string>, rows: seq<seq<(string, string)>>)
    returns (r: Result<seq<Json>, Error>)
    ensures r.Success? <==> forall i :: 0 <= i < |rows| ==> ConvertRowSpec(schema, index, rows[i]).Success?
    ensures r.Success? ==>
              |r.value| == |rows| &&
              forall i :: 0 <= i < |rows| ==> r.value[i] == Obj(ConvertRowSpec(schema, index, rows[i]).value)
    ensures r.Failure? ==>
              exists i :: 0 <= i < |rows| && ConvertRowSpec(schema, index, rows[i]) == Failure(r.error) &&
                          forall j :: 0 <= j < i ==> ConvertRowSpec(schema, index, rows[j]).Success?
  {
    var results: seq<Json> := [];
    for i := 0 to |rows|
      invariant |results| == i
      invariant forall j :: 0 <= j < i ==>
                  ConvertRowSpec(schema, index, rows[j]).Success? &&
                  results[j] == Obj(ConvertRowSpec(schema, index, rows[j]).value)
    {
      var node := ConvertRow(schema, index, rows[i]);
      if node.Failure? {
        return Failure(node.error);
      }
      results := results + [Obj(node.value)];
    }
    r := Success(results);
  }

  /** The nodes of all rows, when none fails. */
  function Graph(schema: TableSchema, index: map<string, string>, rows: seq<seq<(string, string)>>): seq<Json>
    requires forall i :: 0 <= i < |rows| ==> ConvertRowSpec(schema, index, rows[i]).Success?
  {
    seq(|rows|, i requires 0 <= i < |rows| => Obj(ConvertRowSpec(schema, index, rows[i]).value))
  }

  /** A whole run: the title index and the labels are computed before any row
      is read, so every row is converted against the same index, and the
      labels appear in the envelope next to the rows. */
  method Run(meta: Metadata, schema: TableSchema, rows: seq<seq<(string, string)>>)
    returns (r: Result<map<string, Json>, Error>)
    modifies meta
    ensures meta.entries == Assign(old(meta.entries), LabelWrites(schema.columns))
    ensures r.Success? <==> forall i :: 0 <= i < |rows| ==> ConvertRowSpec(schema, TitleIndex(schema.columns), rows[i]).Success?
    ensures r.Success? ==>
              (forall k :: k in r.value <==> k == "@graph" || (k in meta.entries && !Dropped(k))) &&
              r.value["@graph"] == (if "@graph" in meta.entries then meta.entries["@graph"]
                                    else Arr(Graph(schema, TitleIndex(schema.columns), rows))) &&
              (forall k :: k in r.value && k != "@graph" ==> r.value[k] == meta.entries[k])
  {
    var index := BuildTitleIndex(schema.columns);
    meta.AddPropertyLabels(schema.columns);
    var results := ConvertRows(schema, index, rows);
    if results.Failure? {
      return Failure(results.error);
    }
    assert results.value == Graph(schema, index, rows);
    var output := meta.Output(results.value);
    r := Success(output);
  }
}
