# csv-to-jsonld: a verified model of the row converter

`convert.js` turns a CSV file described by CSV on the Web metadata into a
JSON-LD document. It works in four stages, each modelled here.

1. **Title index.** Before any row is read, it maps every column title to the
   column's internal `name`. A title shared by several columns names the last
   of them.
2. **Labels.** It writes an `rdfs:label` annotation into the metadata object
   for every column with a `propertyUrl`.
3. **Rows.** It converts each row with `convertRowToJSONLD`:
   - Cells are stored under internal names.
   - Every ordinary column gives a property. The value is either an `{@id}`
     reference built from the column's `valueUrl` template, or the cell typed
     by `convertType`.
   - The table-level `aboutUrl` gives the node's `@id`.
   - Virtual columns are then handled in two passes. The first creates the
     objects the column templates name and records them in a `lookups` table.
     The second attaches further properties to those objects, or to the top
     level.
4. **Envelope.** It wraps the nodes in an envelope with `@graph`, together
   with the metadata's other keys.

The modules follow that structure:

- `Json`: JSON values, `Option`/`Result`, and JavaScript truthiness of schema
  strings (`Given`).
- `Assignments`: a JavaScript object filled by a sequence of property
  assignments, and the last-write-wins lemma every later stage relies on.
- `Numbers`: `parseInt(string)`, following section 19.2.5 of ECMAScript
  (white space, sign, `0x` prefix, longest digit prefix, NaN).
- `Template`: `processValueUrl`. The global lazy regular expression
  `/{(.+?)}/g` is modelled as a cut of the template into literal characters
  and placeholders, followed by a rendering step.
- `Schema`: columns, the title index (`BuildTitleIndex`, a loop), and
  `columns.find`.
- `Typing`: the second (effective) `convertType`.
- `Metadata`: a class whose `entries` field is the metadata object. Its
  methods are the label loop and the envelope.
- `RowMapper`: `convertRowToJSONLD`.
  - `ConvertRow` performs it with loops.
  - It is proved equal to the specification function `ConvertRowSpec`.
  - The lemmas state what `ConvertRowSpec` produces.
- `Converter`: the `data` handler applied to all rows, and a whole run.

Behaviour of `convert.js` worth noting, all of it modelled:

- A template placeholder whose key the row lacks becomes the text
  "undefined"; every placeholder is replaced, whatever its value.
- An empty `valueUrl` or `aboutUrl` expansion is written like any other.
- Pass 2 finds its target only through `lookups[expanded aboutUrl]` and that
  entry's truthiness.
- Pass 2 stores the expanded `valueUrl` as a plain string.
- A cell whose title names no column is stored under the internal name
  "undefined".
- A virtual column without `valueUrl` makes `processValueUrl` throw a
  `TypeError`, which aborts the run; the model returns
  `Failure(MissingValueUrl(name))`.

## Model

| member | source | states |
|---|---|---|
| Schema.TitleList | convert.js:27 | a string title gives one title; a title map gives its values in order; no titles give none |
| Schema.BuildTitleIndex | convert.js:24-29 | the loop over columns and titles computes exactly the index `TitleIndex(cols)` |
| Schema.AssignTitles | convert.js:28 | registering one column maps each of its titles to its name and leaves every other title unchanged |
| Schema.TitleIndexLastWins | convert.js:25-29 | a title is indexed iff some column has it, and it maps to the name of the last column having it |
| Schema.FindColumn | convert.js:161 | finds a column iff one has the name, and returns the first such column |
| Metadata.Labels | convert.js:38-46 | a string title gives one "en" label; a title map gives one label per language in order; no titles give none |
| Metadata.Metadata.AddPropertyLabels | convert.js:32-54 | the metadata becomes the old metadata with the label assignments of all columns applied in order |
| Metadata.PropertyLabels | convert.js:36-53 | a property is annotated iff some column annotates it; the last annotating column's labels win; other keys are unchanged |
| Metadata.AnnotatedColumns | convert.js:37-47 | a column is annotated iff its propertyUrl is truthy and its titles are a string or a non-empty map |
| Metadata.Metadata.Output | convert.js:99-107 | the envelope's keys are `@graph` plus every metadata key except url, tableSchema and dialect; values are copied; `@graph` holds the rows unless the metadata overrides it |
| Template.Close | convert.js:128 | the lazy group ends at the first `}` that closes a non-empty key with no line terminator |
| Template.UnparseSegments | convert.js:128 | the cut into literals and placeholders spells out the template exactly |
| Template.SegmentKeysValid | convert.js:128 | every placeholder key is one the capture group can capture |
| Template.ShiftPlaceholder | convert.js:128 | skipping a character that opens no match does not change whether the pattern matches |
| Template.HolesIffPlaceholder | convert.js:128 | the cut has a placeholder iff the regular expression matches somewhere in the template |
| Template.RenderLiterals | convert.js:128 | rendering segments without placeholders yields their text |
| Template.ExpandLiteralTemplate | convert.js:127-129 | a template the pattern never matches is returned unchanged |
| Template.ExpandPlainPrefix | convert.js:127-129 | text without `{` is copied ahead of the expansion of the rest |
| Template.ExpandLeadingPlaceholder | convert.js:127-129 | a leading `{key}` is replaced by the row's value for key |
| Template.ExpandMissingKey | convert.js:128 | a placeholder whose key the row lacks becomes the text "undefined" |
| Template.NoReexpansionExample | convert.js:128 | a substituted value is not expanded again |
| Numbers.TrimStart | convert.js:137 | removes exactly the leading white space |
| Numbers.DigitPrefix | convert.js:137 | the longest prefix of digits in the radix |
| Numbers.Magnitude | convert.js:137 | no value exactly when no digit follows (after the hex prefix, if any) |
| Numbers.ParseInt | convert.js:137 | `parseInt` yields an integer or NaN, never any other number |
| Numbers.ValueOfNatDigits | convert.js:137 | the decimal digits of n read back as n |
| Numbers.DigitPrefixStopsAfter | convert.js:137 | digit reading stops where the digits end |
| Numbers.ParseIntUnsigned | convert.js:137 | text starting with a digit is read as its magnitude |
| Numbers.ParseIntMinus | convert.js:137 | for any text, a leading `-` negates the magnitude read after it, and gives NaN when no digit follows |
| Numbers.ParseIntDecimal | convert.js:137 | the decimal spelling of any integer, followed by non-digit text, is read back as that integer |
| Numbers.ParseIntNoDigits | convert.js:137 | text holding no decimal digit anywhere (signs, letters and white space allowed) is NaN |
| Numbers.TrimStartWhite | convert.js:137 | skipping white space ignores any white prefix |
| Numbers.ParseIntLeadingWhite | convert.js:137 | leading white space does not change the result |
| Numbers.ParseIntLettersExample | convert.js:137 | "abc" reads as NaN |
| Numbers.ParseIntHexExample | convert.js:137 | "0x1A" reads as 26 |
| Typing.ConvertType | convert.js:132-146 | the raw string is returned iff the base type is not integer, decimal or date; otherwise a `{@value, @type}` pair tagged `xsd:` + base type holding the parsed integer, the decimal, or the text |
| Typing.DerivedAsNamed | convert.js:134 | a datatype `{base: t}` converts as the name t |
| Typing.IntegerCell | convert.js:136-137 | an integer cell holding the spelling of n is typed as n |
| Typing.IntegerCellNaN | convert.js:137 | an integer cell holding no digit (such as "-abc" or "-") is typed as NaN, not an error |
| Assignments.AssignAt | convert.js:154-157 | after a series of assignments a key is present iff it was or is assigned; the last write's value wins; unassigned keys keep their values |
| Assignments.AssignUniform | convert.js:28 | when every write of a key writes the same value, the key holds that value |
| Assignments.LastWriteExists | convert.js:154-157 | a key that is written has a last write |
| Assignments.AssignStep | convert.js:156 | one more assignment updates the map at its key |
| RowMapper.InternalRowWellFormed | convert.js:151-157 | the internal row's keys are distinct and are exactly the names holding values |
| RowMapper.ReadCells | convert.js:154-157 | the cell loop builds exactly the internal row, keys in first-insertion order |
| RowMapper.InternalRowValues | convert.js:154-157 | the internal row's contents are the cell assignments applied in order |
| RowMapper.CellsLastWins | convert.js:154-157 | a name holds a value iff some cell's title resolves to it, and the last such cell wins |
| RowMapper.MapColumns | convert.js:160-178 | the column loop gives exactly the ordinary-column assignments applied in internal key order |
| RowMapper.OrdinaryWritesAt | convert.js:160-178 | internal column i writes property p iff its first matching column is unsuppressed with output key p, and writes its valueUrl reference or typed cell |
| RowMapper.OrdinaryKeys | convert.js:160-178 | p is a property iff some internal column emits it |
| RowMapper.OrdinaryValues | convert.js:160-178 | the value of p is that of the last internal column emitting it |
| RowMapper.NoRowIdentifier | convert.js:181-183 | without a truthy table aboutUrl, `@id` is present before the virtual passes iff an ordinary column emits it |
| RowMapper.RowIdentifier | convert.js:181-183 | with a truthy table aboutUrl and no virtual column writing `@id`, a converted node's `@id` is the expanded aboutUrl |
| RowMapper.CreateObjects | convert.js:186-192 | the pass-1 loop computes exactly pass 1 over the columns |
| RowMapper.CreatePassAssigns | convert.js:186-192 | pass 1 applies the object creations to the node and the lookup records to `lookups`, in column order |
| RowMapper.CreatedNode | convert.js:186-192 | pass 1 sets property p iff some pass-1 column creates it, to the last such column's `{@id}`; other keys are unchanged |
| RowMapper.CreatedLookups | convert.js:186-192 | `lookups` has u iff some pass-1 column's valueUrl expands to u, holding the last one's propertyUrl |
| RowMapper.CreatedTargets | convert.js:186-192 | every truthy lookup names an object in the node that a pass-1 column created |
| RowMapper.AttachProperties | convert.js:195-205 | the pass-2 loop computes exactly pass 2 over the columns |
| RowMapper.AttachStepFrame | convert.js:196-203 | one pass-2 step keeps `lookups` and every key, and changes only its target or its own property |
| RowMapper.AttachPassFrame | convert.js:195-205 | pass 2 keeps `lookups` and never removes a key |
| RowMapper.AttachPassKeeps | convert.js:195-205 | a key that no pass-2 column and no lookup targets keeps its value |
| RowMapper.AttachTargetsPresent | convert.js:199-200 | at every point of pass 2, every truthy lookup still names a key of the node |
| RowMapper.AttachInto | convert.js:199-200 | a recorded target holding an object gets the plain expanded valueUrl under the column's property |
| RowMapper.AttachTopLevel | convert.js:201-202 | without a truthy lookup entry, the plain expanded valueUrl goes to the top level |
| RowMapper.PassFailureSticks | convert.js:186-205 | a pass that has failed on some prefix of the columns returns that same failure |
| RowMapper.PassFails | convert.js:186-205 | a pass fails iff one of its columns lacks valueUrl, with the first such column's error |
| RowMapper.ConvertRowFails | convert.js:186-205 | a row fails iff some virtual column lacks valueUrl |
| Schema.TitleIndex | convert.js:25-29 | the title index after registering the columns in order: each column's titles assigned its name, later columns overwriting earlier ones |
| Schema.ResolveTitle | convert.js:155 | `columns[title]`: the internal name of a known title, "undefined" for any other |
| Metadata.LabelWrite | convert.js:37-52 | the assignment `metadata[propertyUrl] = {@id, rdfs:label}` a column makes: only with a truthy propertyUrl and at least one label |
| Template.Segments | convert.js:128 | the template cut, left to right, into literal characters and the placeholders the global lazy pattern matches, resuming after each match |
| Template.Render | convert.js:128 | literal characters copied, each placeholder replaced by `row[key]` or the text "undefined", with no rescanning |
| Template.Expand | convert.js:127-129 | `processValueUrl`: the segments of the template rendered against the row |
| Numbers.ParseTrimmed | convert.js:137 | after white space, one optional sign then the magnitude; an integer or NaN |
| Typing.BaseType | convert.js:133-134 | `datatype.base`, or else `datatype` itself, when the datatype is truthy; none for a falsy datatype or an object without a truthy base |
| RowMapper.InternalRow | convert.js:154-157 | the internal row after each cell is stored under its title's internal name: a new key goes last, a repeated key keeps its place and takes the later value |
| RowMapper.OutputKey | convert.js:164 | the column's propertyUrl when truthy, else the internal column name |
| RowMapper.ColumnValue | convert.js:168-173 | the `{@id}` of the expanded valueUrl when valueUrl is truthy, the typed cell otherwise |
| RowMapper.OrdinaryWrite | convert.js:161-176 | the assignment one internal column makes: none when no column has its name or the first such column suppresses output |
| RowMapper.WithId | convert.js:181-183 | `@id` set to the expanded table aboutUrl when it is truthy; the node unchanged otherwise |
| RowMapper.CreateStep | convert.js:187-191 | pass 1 on one virtual column without truthy aboutUrl: `{@id}` under its propertyUrl and a lookup entry from the expanded valueUrl to that propertyUrl; failure without valueUrl |
| RowMapper.Target | convert.js:199-200 | the property `lookups[about]` names, when that entry is truthy |
| RowMapper.AttachStep | convert.js:196-204 | pass 2 on one virtual column with truthy aboutUrl: the plain expanded valueUrl into the looked-up object or at the top level; failure without valueUrl |
| RowMapper.Pass | convert.js:186-205 | `columns.filter(col => col.virtual).forEach(...)`: the step applied to each column in order, stopping at the first failure |
| RowMapper.ConvertRowSpec | convert.js:149-208 | the node: ordinary columns, then `@id`, then pass 1, then pass 2; or the error of the first failing virtual column |
| RowMapper.ConvertRow | convert.js:149-208 | the method returns exactly the specified node or error |
| Converter.ConvertRows | convert.js:94-96 | succeeds iff every row does, giving the nodes in row order; otherwise gives the first failing row's error |
| Converter.Run | convert.js:24-108 | the metadata receives the labels; success iff every row converts; the envelope holds the metadata keys and the graph |

## Left out

- Converter.Run: the command line is not modelled (lines 7-22). This covers the argument check, loading the metadata file, and the exit when `url` is missing. The run starts from a metadata object and a schema.
- Reading the CSV is not modelled (lines 59-110). This covers fetching a URL with axios, opening a file stream, and the CSV parser. The rows are given as sequences of (title, value) cells in header order, and the URL and file branches become one.
- Printing with `JSON.stringify` and `console.log` is not modelled.
  - Key order in the printed output is not modelled.
  - A NaN integer value is printed as `null`, which is not modelled.
  - An undefined `@context` is dropped by the printer. The model omits `@context` when the metadata has none.
- Typing.ConvertType: `parseFloat` is kept symbolic as `ParsedFloat(text)`, because floating point is out of scope. `parseInt` is exact on unbounded integers; precision loss above 2^53 and the value -0 are not modelled.
- The first `convertType` (lines 113-124) is not modelled: the second declaration of the same name replaces it.
- The `columnTitles` table (lines 31-34) is not modelled: it is written but never read.
- Where key order decides behaviour (the internal row, a title map) it is insertion order; JavaScript lists integer-like keys first, which is not modelled, and neither are prototype keys such as `toString`. The node and the other objects are modelled as maps without order.
- A title that is an array, or any other non-string value, is treated as a language map keyed by position. Schema values that are not strings (numbers, booleans) are not modelled.
- Converter.ConvertRows: an exception ends the whole run with no output. The model reports it as a `Failure` carrying the error of the first failing row.
- A metadata object without `tableSchema` makes the script throw at start-up. The model takes the schema as given.
