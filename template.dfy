/** URL templates: `processValueUrl`, which replaces every match of the
    regular expression `/{(.+?)}/g` in a template by the row's value for the
    captured key. The expansion is modelled in two steps, as the regular
    expression engine performs it: the template alone is cut into literal
    characters and placeholders (`Segments`), then each placeholder is replaced
    by its value (`Render`). */
module Template {
  import opened Json

  /** The code units that the regular-expression atom `.` does not match. */
  predicate IsLineTerminator(c: char) {
    c == '\n' || c == '\r' || c == '\U{2028}' || c == '\U{2029}'
  }

  /** A match of `{(.+?)}` that starts at index 0 of `t` can end with the `}` at
      index `j`: the key `t[1..j]` is at least one character long and holds no
      line terminator. */
  predicate ClosesAt(t: string, j: int) {
    2 <= j < |t| && t[j] == '}' && forall m :: 1 <= m < j ==> !IsLineTerminator(t[m])
  }

  function Scan(t: string, j: nat): (r: Option<nat>)
    requires 1 <= j
    requires forall m :: 1 <= m < j && m < |t| ==> !IsLineTerminator(t[m])
    ensures r.Some? ==> j <= r.value && ClosesAt(t, r.value)
    ensures forall k :: j <= k && ClosesAt(t, k) ==> r.Some? && r.value <= k
    decreases |t| - j
  {
    if j >= |t| || IsLineTerminator(t[j]) then None
    else if j >= 2 && t[j] == '}' then Some(j)
    else Scan(t, j + 1)
  }

  /** The end of the placeholder the lazy pattern matches at the start of `t`:
      the first index at which a match can end, if any. */
  function Close(t: string): (r: Option<nat>)
    ensures r.Some? ==> ClosesAt(t, r.value) && forall k :: ClosesAt(t, k) ==> r.value <= k
    ensures r.None? ==> forall k :: !ClosesAt(t, k)
  {
    Scan(t, 1)
  }

  datatype Segment = Lit(c: char) | Hole(key: string)

  /** The template cut into the literal characters the pattern leaves alone and
      the placeholders it matches, scanning left to right and resuming after
      each match, as a global `replace` does. */
  function Segments(t: string): seq<Segment>
    decreases |t|
  {
    if t == [] then []
    else if t[0] == '{' && Close(t).Some? then
      [Hole(t[1..Close(t).value])] + Segments(t[Close(t).value + 1..])
    else [Lit(t[0])] + Segments(t[1..])
  }

  /** The text a segment stands for in the template. */
  function Unparse(segs: seq<Segment>): string {
    if segs == [] then []
    else
      (match segs[0]
       case Lit(c) => [c]
       case Hole(k) => "{" + k + "}") + Unparse(segs[1..])
  }

  /** `row[key]` as the replacement callback returns it: a missing key gives
      `undefined`, which `replace` turns into the text "undefined". */
  function Lookup(row: map<string, string>, key: string): string {
    if key in row then row[key] else Undefined
  }

  function Render(segs: seq<Segment>, row: map<string, string>): string {
    if segs == [] then []
    else
      (match segs[0]
       case Lit(c) => [c]
       case Hole(k) => Lookup(row, k)) + Render(segs[1..], row)
  }

  /** `processValueUrl(t, row)`. */
  function Expand(t: string, row: map<string, string>): string {
    Render(Segments(t), row)
  }

  /** What the capture group `(.+?)` can capture: at least one character, no
      line terminator, and no `}` after the first character. */
  predicate ValidKey(k: string) {
    |k| >= 1 &&
    (forall m :: 0 <= m < |k| ==> !IsLineTerminator(k[m])) &&
    (forall m :: 1 <= m < |k| ==> k[m] != '}')
  }

  /** The pattern can match `t[i..j + 1]`: a `{` at `i`, a `}` at `j`, and a key
      of at least one character and no line terminator in between. */
  ghost predicate MatchAt(t: string, i: int, j: int) {
    0 <= i && i + 2 <= j < |t| && t[i] == '{' && t[j] == '}' &&
    forall m :: i < m < j ==> !IsLineTerminator(t[m])
  }

  /** Some match of the pattern occurs somewhere in `t`. */
  ghost predicate HasPlaceholder(t: string) {
    exists i, j :: MatchAt(t, i, j)
  }

  predicate HasHole(segs: seq<Segment>) {
    exists m :: 0 <= m < |segs| && segs[m].Hole?
  }

  /** The segments spell out the template: literal text is kept character for
      character and every placeholder covers exactly `{key}`. */
  lemma {:induction false} UnparseSegments(t: string)
    ensures Unparse(Segments(t)) == t
    decreases |t|
  {
    if t != [] {
      if t[0] == '{' && Close(t).Some? {
        var j := Close(t).value;
        UnparseSegments(t[j + 1..]);
        assert t == "{" + t[1..j] + "}" + t[j + 1..];
      } else {
        UnparseSegments(t[1..]);
        assert t == [t[0]] + t[1..];
      }
    }
  }

  /** Every placeholder's key is something the capture group can capture. */
  lemma {:induction false} SegmentKeysValid(t: string)
    ensures forall m :: 0 <= m < |Segments(t)| && Segments(t)[m].Hole? ==> ValidKey(Segments(t)[m].key)
    decreases |t|
  {
    if t != [] {
      if t[0] == '{' && Close(t).Some? {
        var j := Close(t).value;
        SegmentKeysValid(t[j + 1..]);
        var k := t[1..j];
        forall m | 1 <= m < |k| ensures k[m] != '}' {
          assert !ClosesAt(t, m + 1);
        }
      } else {
        SegmentKeysValid(t[1..]);
      }
    }
  }

  /** Moving the start of a template past a character that opens no match
      neither creates nor removes a match. */
  lemma ShiftPlaceholder(t: string)
    requires t != [] && !(t[0] == '{' && Close(t).Some?)
    ensures HasPlaceholder(t) <==> HasPlaceholder(t[1..])
  {
    if HasPlaceholder(t) {
      var i, j :| MatchAt(t, i, j);
      if i == 0 {
        assert ClosesAt(t, j);
        assert false;
      }
      assert MatchAt(t[1..], i - 1, j - 1);
    }
    if HasPlaceholder(t[1..]) {
      var i, j :| MatchAt(t[1..], i, j);
      assert MatchAt(t, i + 1, j + 1);
    }
  }

  /** A template yields a placeholder segment exactly when the pattern matches
      somewhere in it. */
  lemma {:induction false} HolesIffPlaceholder(t: string)
    ensures HasHole(Segments(t)) <==> HasPlaceholder(t)
    decreases |t|
  {
    if t != [] {
      if t[0] == '{' && Close(t).Some? {
        var j := Close(t).value;
        assert Segments(t)[0].Hole?;
        assert MatchAt(t, 0, j);
      } else {
        HolesIffPlaceholder(t[1..]);
        ShiftPlaceholder(t);
        var segs := Segments(t);
        assert segs == [Lit(t[0])] + Segments(t[1..]);
        assert HasHole(segs) ==> HasHole(Segments(t[1..])) by {
          if HasHole(segs) {
            var m :| 0 <= m < |segs| && segs[m].Hole?;
            assert m > 0 && Segments(t[1..])[m - 1] == segs[m];
          }
        }
        assert HasHole(Segments(t[1..])) ==> HasHole(segs) by {
          if HasHole(Segments(t[1..])) {
            var m :| 0 <= m < |Segments(t[1..])| && Segments(t[1..])[m].Hole?;
            assert segs[m + 1] == Segments(t[1..])[m];
          }
        }
      }
    } else {
      assert !HasPlaceholder(t);
    }
  }

  lemma {:induction false} RenderLiterals(segs: seq<Segment>, row: map<string, string>)
    requires !HasHole(segs)
    ensures Render(segs, row) == Unparse(segs)
    decreases |segs|
  {
    if segs != [] {
      assert segs[0].Lit?;
      assert !HasHole(segs[1..]);
      RenderLiterals(segs[1..], row);
    }
  }

  /** A template in which the pattern matches nowhere is returned unchanged,
      whatever the row holds. */
  lemma ExpandLiteralTemplate(t: string, row: map<string, string>)
    requires !HasPlaceholder(t)
    ensures Expand(t, row) == t
  {
    HolesIffPlaceholder(t);
    RenderLiterals(Segments(t), row);
    UnparseSegments(t);
  }

  /** Text without `{` is copied to the output as it stands, ahead of the
      expansion of what follows it. */
  lemma {:induction false} ExpandPlainPrefix(p: string, rest: string, row: map<string, string>)
    requires forall m :: 0 <= m < |p| ==> p[m] != '{'
    ensures Expand(p + rest, row) == p + Expand(rest, row)
    decreases |p|
  {
    if p != [] {
      ExpandPlainPrefix(p[1..], rest, row);
      var t := p + rest;
      assert t[0] == p[0] && t[1..] == p[1..] + rest;
      assert Segments(t) == [Lit(p[0])] + Segments(t[1..]);
      calc {
        Expand(t, row);
        [p[0]] + Expand(t[1..], row);
        [p[0]] + (p[1..] + Expand(rest, row));
        ([p[0]] + p[1..]) + Expand(rest, row);
        { assert p == [p[0]] + p[1..]; }
        p + Expand(rest, row);
      }
    } else {
      assert p + rest == rest;
    }
  }

  /** A leading placeholder is replaced by the row's value for its key (the
      text "undefined" when the row has none) and the expansion resumes after
      its `}`; the value itself is never scanned for placeholders. */
  lemma ExpandLeadingPlaceholder(k: string, rest: string, row: map<string, string>)
    requires ValidKey(k)
    ensures Expand("{" + k + "}" + rest, row) == Lookup(row, k) + Expand(rest, row)
  {
    var t := "{" + k + "}" + rest;
    var j := |k| + 1;
    assert ClosesAt(t, j);
    assert forall i :: ClosesAt(t, i) ==> j <= i;
    assert Close(t) == Some(j);
    assert t[1..j] == k;
    assert t[j + 1..] == rest;
  }

  /** A placeholder whose key the row lacks becomes the text "undefined": the
      expansion is never empty or omitted on that account. */
  lemma ExpandMissingKey(k: string, rest: string, row: map<string, string>)
    requires ValidKey(k) && k !in row
    ensures Expand("{" + k + "}" + rest, row) == Undefined + Expand(rest, row)
  {
    ExpandLeadingPlaceholder(k, rest, row);
  }

  /** The value substituted for one placeholder is not expanded again. */
  lemma NoReexpansionExample()
    ensures Expand("{a}", map["a" := "{b}", "b" := "x"]) == "{b}"
  {
    ExpandLeadingPlaceholder("a", "", map["a" := "{b}", "b" := "x"]);
    assert "{" + "a" + "}" + "" == "{a}";
    assert Expand("", map["a" := "{b}", "b" := "x"]) == "";
  }
}
