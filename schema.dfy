/** The table schema as the converter reads it, and the title index built from
    it once, before any row is read. */
module Schema {
  import opened Json
  import opened Assignments

  /** A column's `titles`: absent, one string, or an object from language tag
      to title, given by its entries in enumeration order. */
  datatype Titles = NoTitles | Title(text: string) | ByLanguage(entries: seq<(string, string)>)

  /** A column's `datatype`: absent, a type name such as "integer", or an
      object whose `base` property names the type. */
  datatype Datatype = NoDatatype | Named(name: string) | Derived(base: Option<string>)

  datatype Column = Column(
    name: string,
    titles: Titles,
    propertyUrl: Option<string>,
    dataType: Datatype,
    valueUrl: Option<string>,
    aboutUrl: Option<string>,
    suppressOutput: bool,
    virtual: bool)

  /** `tableSchema`: its column list and its table-level `aboutUrl`. */
  datatype TableSchema = TableSchema(columns: seq<Column>, aboutUrl: Option<string>)

  /** The titles a column registers: its string title, or every value of its
      language map, or none. */
  function TitleList(t: Titles): (r: seq<string>)
    ensures t.NoTitles? ==> r == []
    ensures t.Title? ==> r == [t.text]
    ensures t.ByLanguage? ==> |r| == |t.entries| && forall i :: 0 <= i < |r| ==> r[i] == t.entries[i].1
  {
    match t
    case NoTitles => []
    case Title(s) => [s]
    case ByLanguage(es) => seq(|es|, i requires 0 <= i < |es| => es[i].1)
  }

  /** The assignments `columns[title] = column.name` one column makes. */
  function TitleWrites(c: Column): seq<Option<(string, string)>> {
    var ts := TitleList(c.titles);
    seq(|ts|, i requires 0 <= i < |ts| => Some((ts[i], c.name)))
  }

  /** The title index after the columns `cols` have been registered in order. */
  function TitleIndex(cols: seq<Column>): map<string, string>
    decreases |cols|
  {
    if cols == [] then map[]
    else Assign(TitleIndex(cols[..|cols| - 1]), TitleWrites(cols[|cols| - 1]))
  }

  /** Builds the lookup table from column title to internal column name. */
  method BuildTitleIndex(cols: seq<Column>) returns (index: map<string, string>)
    ensures index == TitleIndex(cols)
  {
    index := map[];
    for i := 0 to |cols|
      invariant index == TitleIndex(cols[..i])
    {
      var column := cols[i];
      var titles := TitleList(column.titles);
      ghost var before := index;
      ghost var ws := TitleWrites(column);
      for j := 0 to |titles|
        invariant index == Assign(before, ws[..j])
      {
        index := index[titles[j] := column.name];
        assert ws[..j + 1][..j] == ws[..j];
      }
      assert ws[..|titles|] == ws;
      assert cols[..i + 1][..i] == cols[..i];
    }
    assert cols[..|cols|] == cols;
  }

  /** Registering one column's titles: each of its titles now names the
      column, and every other title is left as it was. */
  lemma AssignTitles(m: map<string, string>, c: Column, t: string)
    ensures t in Assign(m, TitleWrites(c)) <==> t in m || t in TitleList(c.titles)
    ensures t in TitleList(c.titles) ==> Assign(m, TitleWrites(c))[t] == c.name
    ensures t !in TitleList(c.titles) && t in m ==> Assign(m, TitleWrites(c))[t] == m[t]
  {
    var ws := TitleWrites(c);
    var ts := TitleList(c.titles);
    AssignAt(m, ws, t);
    assert (exists i :: 0 <= i < |ws| && Writes(ws[i], t)) <==> t in ts by {
      if t in ts {
        var i :| 0 <= i < |ts| && ts[i] == t;
        assert Writes(ws[i], t);
      }
    }
    if t in ts {
      AssignUniform(m, ws, t, c.name);
    }
  }

  /** A title is in the index iff some column has it, and it names the last
      column in the list that has it: on a shared title the later column wins. */
  lemma {:induction false} TitleIndexLastWins(cols: seq<Column>, t: string)
    ensures t in TitleIndex(cols) <==> exists i :: 0 <= i < |cols| && t in TitleList(cols[i].titles)
    ensures forall i :: 0 <= i < |cols| && t in TitleList(cols[i].titles) &&
                        (forall j :: i < j < |cols| ==> t !in TitleList(cols[j].titles)) ==>
                        t in TitleIndex(cols) && TitleIndex(cols)[t] == cols[i].name
    decreases |cols|
  {
    if cols != [] {
      var n := |cols| - 1;
      var pre := cols[..n];
      var c := cols[n];
      TitleIndexLastWins(pre, t);
      AssignTitles(TitleIndex(pre), c, t);
      assert TitleIndex(cols) == Assign(TitleIndex(pre), TitleWrites(c));
      assert forall i :: 0 <= i < n ==> pre[i] == cols[i];
      forall i | 0 <= i < |cols| && t in TitleList(cols[i].titles) &&
                 (forall j :: i < j < |cols| ==> t !in TitleList(cols[j].titles))
        ensures TitleIndex(cols)[t] == cols[i].name
      {
        if i < n {
          assert t !in TitleList(c.titles);
          assert forall j :: i < j < n ==> t !in TitleList(pre[j].titles);
        }
      }
    }
  }

  /** `columns[title]` as a property name: the internal name for a known title,
      "undefined" for any other. */
  function ResolveTitle(index: map<string, string>, title: string): string {
    if title in index then index[title] else Undefined
  }

  /** `tableSchema.columns.find(col => col.name === name)`: the first column
      with that name. */
  function FindColumn(cols: seq<Column>, name: string): (r: Option<Column>)
    ensures r.Some? <==> exists i :: 0 <= i < |cols| && cols[i].name == name
    ensures r.Some? ==> exists i :: 0 <= i < |cols| && cols[i] == r.value && cols[i].name == name &&
                                   forall j :: 0 <= j < i ==> cols[j].name != name
    decreases |cols|
  {
    if cols == [] then None
    else if cols[0].name == name then Some(cols[0])
    else
      var r := FindColumn(cols[1..], name);
      assert forall i :: 0 <= i < |cols| - 1 ==> cols[1..][i] == cols[i + 1];
      r
  }
}
