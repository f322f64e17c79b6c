/** The metadata document: the `rdfs:label` annotations the converter writes
    into it for every column with a `propertyUrl`, and the output envelope
    assembled from it once all rows are converted. */
module Metadata {
  import opened Json
  import opened Assignments
  import opened Schema

  /** `{"@value": text, "@language": lang}`. */
  function LangString(text: string, lang: string): Json {
    Obj(map["@value" := Str(text), "@language" := Str(lang)])
  }

  /** The labels of a column: one tagged "en" for a string title, one per
      language key of a title map, in its order, and none without titles. */
  function Labels(t: Titles): (r: seq<Json>)
    ensures t.Title? ==> r == [LangString(t.text, "en")]
    ensures t.ByLanguage? ==>
              (|r| == |t.entries| && forall i :: 0 <= i < |r| ==> r[i] == LangString(t.entries[i].1, t.entries[i].0))
    ensures t.NoTitles? ==> r == []
  {
    match t
    case NoTitles => []
    case Title(s) => [LangString(s, "en")]
    case ByLanguage(es) => seq(|es|, i requires 0 <= i < |es| => LangString(es[i].1, es[i].0))
  }

  /** The annotation `{"@id": p, "rdfs:label": labels}`. */
  function LabelEntry(p: string, labels: seq<Json>): Json {
    Obj(map["@id" := Str(p), "rdfs:label" := Arr(labels)])
  }

  /** Column `c` annotates property `p`: its `propertyUrl` is `p` and it has at
      least one label. */
  predicate Annotates(c: Column, p: string) {
    Given(c.propertyUrl) && c.propertyUrl.value == p && |Labels(c.titles)| > 0
  }

  /** The assignment `metadata[propertyUrl] = {...}` column `c` makes, if any. */
  function LabelWrite(c: Column): Option<(string, Json)> {
    if Given(c.propertyUrl) && |Labels(c.titles)| > 0 then
      Some((c.propertyUrl.value, LabelEntry(c.propertyUrl.value, Labels(c.titles))))
    else None
  }

  function LabelWrites(cols: seq<Column>): seq<Option<(string, Json)>> {
    seq(|cols|, i requires 0 <= i < |cols| => LabelWrite(cols[i]))
  }

  /** The keys the envelope never copies from the metadata. */
  predicate Dropped(k: string) {
    k == "url" || k == "tableSchema" || k == "dialect"
  }

  class Metadata {
    /** The metadata object's properties. */
    var entries: map<string, Json>

    constructor (entries: map<string, Json>)
      ensures this.entries == entries
    {
      this.entries := entries;
    }

    /** The label loop: every column with a `propertyUrl` and at least one label
        sets `metadata[propertyUrl]` to its annotation. */
    method AddPropertyLabels(cols: seq<Column>)
      modifies this
      ensures entries == Assign(old(entries), LabelWrites(cols))
    {
      for i := 0 to |cols|
        invariant entries == Assign(old(entries), LabelWrites(cols[..i]))
      {
        var column := cols[i];
        if Given(column.propertyUrl) {
          var labels := Labels(column.titles);
          if |labels| > 0 {
            entries := entries[column.propertyUrl.value := LabelEntry(column.propertyUrl.value, labels)];
          }
        }
        assert LabelWrites(cols[..i + 1])[..i] == LabelWrites(cols[..i]);
      }
      assert cols[..|cols|] == cols;
    }

    /** The output envelope: `@graph` holds the converted rows and every
        metadata key except `url`, `tableSchema` and `dialect` is copied,
        `@context` included (a metadata key `@graph` replaces the rows). */
    method Output(graph: seq<Json>) returns (output: map<string, Json>)
      ensures forall k :: k in output <==> k == "@graph" || (k in entries && !Dropped(k))
      ensures output["@graph"] == if "@graph" in entries then entries["@graph"] else Arr(graph)
      ensures forall k :: k in output && k != "@graph" ==> output[k] == entries[k]
    {
      output := map["@graph" := Arr(graph)];
      if "@context" in entries {
        output := output["@context" := entries["@context"]];
      }
      var keys := entries.Keys;
      while keys != {}
        invariant keys <= entries.Keys
        invariant forall k :: k in output <==>
                    k == "@graph" || (k == "@context" && k in entries) ||
                    (k in entries && k !in keys && !Dropped(k))
        invariant output["@graph"] == if "@graph" in entries && "@graph" !in keys then entries["@graph"] else Arr(graph)
        invariant forall k :: k in output && k != "@graph" ==> output[k] == entries[k]
        decreases keys
      {
        var k :| k in keys;
        if !(k == "@context" || Dropped(k)) {
          output := output[k := entries[k]];
        }
        keys := keys - {k};
      }
    }
  }

  /** Property annotations, last column wins: after the label loop, `p` is a
      metadata key iff it was one before or some column annotates it; the
      annotation is that of the last column annotating `p`; a key no column
      annotates keeps its value. */
  lemma PropertyLabels(m: map<string, Json>, cols: seq<Column>, p: string)
    ensures p in Assign(m, LabelWrites(cols)) <==> p in m || exists i :: 0 <= i < |cols| && Annotates(cols[i], p)
    ensures forall i :: 0 <= i < |cols| && Annotates(cols[i], p) &&
                        (forall j :: i < j < |cols| ==> !Annotates(cols[j], p)) ==>
                        p in Assign(m, LabelWrites(cols)) &&
                        Assign(m, LabelWrites(cols))[p] == LabelEntry(p, Labels(cols[i].titles))
    ensures (forall i :: 0 <= i < |cols| ==> !Annotates(cols[i], p)) && p in m ==>
              p in Assign(m, LabelWrites(cols)) && Assign(m, LabelWrites(cols))[p] == m[p]
  {
    var ws := LabelWrites(cols);
    assert forall i :: 0 <= i < |cols| ==> (Writes(ws[i], p) <==> Annotates(cols[i], p));
    AssignAt(m, ws, p);
    forall i | 0 <= i < |cols| && Annotates(cols[i], p) && (forall j :: i < j < |cols| ==> !Annotates(cols[j], p))
      ensures LastWriteAt(ws, i, p)
    {
    }
  }

  /** A column gets an annotation iff its `propertyUrl` is truthy and its
      titles are a string or a non-empty language map. */
  lemma AnnotatedColumns(c: Column)
    ensures LabelWrite(c).Some? <==> Given(c.propertyUrl) && (c.titles.Title? || (c.titles.ByLanguage? && c.titles.entries != []))
  {
  }
}
