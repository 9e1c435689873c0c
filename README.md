# graph-selector in Dafny

This project models the core of graph-selector: a small text language in
which each line declares a node, indentation declares edges from the line
above, `#id`, `.class` and `[key=value]` features describe nodes and edges,
and `(…)` pointers refer to nodes declared elsewhere. The model covers four
parts of the repository:

1. **The parse engine** (`graph-selector/src/parse.ts` and its helpers
   `getFeatureData.ts`, `matchAndRemovePointers.ts`, `regexps.ts`,
   `getIndentSize.ts`, `ParseError.ts`). A forward scan over the lines keeps
   a 1-based line counter, a stack of ancestor scopes (one per open `{`
   container), the container parents, the registered node and edge ids
   and a queue of pending pointer edges. A second pass then resolves the
   queue. Failures are `ParseError` values with a code and a line and
   column span.
2. **The serialisers**: `stringify.ts` (graph back to text), `toMermaid.ts`
   (Mermaid flowchart text) and `toCytoscapeElements.ts` (an element list).
3. **The line operations** under `graph-selector/src/operate/`. Each one
   splits a line into indent, edge part, label, feature run and trailing
   ` {`, edits classes or attributes, and puts the line back together.
   `operate` applies one of the two registered operations to one line of a
   document.
4. **The legacy parser** in `parser/src/parse.ts`. It is an older,
   standalone engine with label-based ids, features written before the
   label, and no containers and no errors.

## Layout

There is one module per source file. The file names follow the source:

- `parse.dfy` (`Parse`), `parse_line.dfy` (`ParseLine`, reading one line)
  and `parse_facts.dfy` (`ParseFacts`, the properties of `parse`);
- `feature_data.dfy` and `feature_text.dfy` (`getFeatureData` and the text
  form of a feature run);
- `pointers.dfy` (`MatchAndRemovePointers`), `regexps.dfy`,
  `get_indent_size.dfy` and `parse_error.dfy` (`ParseErrors`);
- `stringify.dfy`, `to_mermaid.dfy` and `to_cytoscape_elements.dfy`
  (`ToCytoscape`);
- one file per operation, plus `line_parts.dfy` (the common split of a
  line), `class_pattern.dfy` (the `new RegExp(...)` class removal) and
  `data_to_string.dfy`;
- `legacy_pointers.dfy`, `legacy_features.dfy` and `legacy_parse.dfy` for
  the legacy parser.

`types.dfy` holds the data shapes of `graph-selector/src/types.ts`.
`js_string.dfy` and `js_number.dfy` hold the JavaScript built-ins the code
relies on: `trim`, `\s`, `indexOf`, first-occurrence `replace`, `split`,
`join` and the numeric-literal test behind `Number()`.

Each loop of the source is a `method` with a `while` loop. It is proved
equal to a specification function, and the properties are lemmas about
that function.

## Modelling decisions

- `Descriptor` is `Str | Num | Bool`.
  - `Num` keeps the numeric literal as written.
  - `IsNumeric` recognises the StringNumericLiteral grammar of ECMAScript,
    the texts for which `isNaN(Number(v))` is false.
  - A number is falsy when all the digits of its mantissa are zero.
- `Data` is an insertion-ordered sequence of entries with distinct keys.
  Setting a present key overwrites it in place, as a JavaScript object
  does.
- `featuresRe` is imported from `regexps.ts` but not defined in it. The
  model reads the feature run as an anchored prefix:
  - an optional `#[\w-]+`;
  - then `(\.[A-Za-z][\w-]*)*`;
  - then the bracket groups of `getFeatureData.ts:33`.

  The cases in `getFeatureData.test.ts` fit this grammar.
- The colon set of `regexps.ts:5` and `removeClassesFromEdge.ts:43` is
  `:` and the full-width `：` (U+FF1A). That file shows the full-width
  colon mis-decoded.
- The ancestor slot is `None | NodeId | Pointers`.
  - An empty pointer list is truthy, as `[]` is in JavaScript.
  - `parse.ts:341` reassigns the local `ancestors` to a slice, so the
    stored scope keeps its deeper slots. The model tracks which scope the
    local refers to: on the stack, orphaned after a `}`, or detached.
- Pointers resolve over the nodes followed by the edges built so far, as
  `parse.ts:428` does.
- Only the id registry is checked for duplicates (`parse.ts:192-202`). The
  node's data spreads the attributes over `id` (`parse.ts:209-214`), so the
  lines `a [id=x]` and `#x` give two nodes whose data id is `x`, with no
  error. The model proves the registry distinct, and not the data ids.
- In the legacy parser, `edgeIds` is never appended. Its id loop therefore
  always stops at 1, and the model writes the immediate edge id directly
  as `<parent>-<id>-1`.
- In the legacy parser, `findParent` keeps the last slot it read even when
  that slot is unset. The model keeps that value and proves its truthiness
  agrees with the nearest set slot.
- `operate` with a line index outside the lines hands `undefined` to the
  operation, which throws. `OperateOf` answers `None` there.

## Model

| member | source | states |
|---|---|---|
| GetIndentSize.GetIndentSize | graph-selector/src/getIndentSize.ts:1-4 | the indent is the longest prefix of `\s` characters: every character before it is whitespace, the one at it is not, and it is the whole line exactly when the line is blank |
| RegExps.EdgeBreakFrom | graph-selector/src/regexps.ts:5 | the search from an index finds a position where a non-backslash is followed by a colon and a space, or -1, and no earlier position from the start index qualifies |
| RegExps.GetEdgeBreakIndex | graph-selector/src/regexps.ts:5 | `line.search(/[^\\][:：] /)`: -1 exactly when no position matches; otherwise the character at the index is not a backslash, a colon (either width) and a space follow, and no earlier index matches |
| RegExps.LeadingColonIsNoBreak | graph-selector/src/regexps.ts:5 | a colon at index 0 with no other colon gives -1 (the pattern needs a character before the colon) |
| RegExps.EscapedColonIsNoBreak | graph-selector/src/regexps.ts:5 | a line whose every colon is preceded by a backslash has no edge break |
| RegExps.FeaturesFrom | graph-selector/src/regexps.ts:7-10 | the scan from an index stops at the first position where `(^\|\s)(#\|\.\|\[)` matches, or at the end of the line |
| RegExps.GetFeaturesIndex | graph-selector/src/regexps.ts:7-10 | the index of the first match, the line length when there is none (never -1); a match at 0 is a feature mark or a whitespace then a feature mark |
| RegExps.InnerDotIsNoFeature | graph-selector/src/regexps.ts:7-10 | a dot inside a word without whitespace (`period.cool`) is no feature start: the index is the line length |
| ParseErrors.NewParseError | graph-selector/src/ParseError.ts:1-25 | the constructed error has name `ParseError` and carries the message, the four positions and the code it was given |
| Operate.Operate | graph-selector/src/operate/operate.ts:26-35 | the in-place update of the split lines yields `OperateOf`: the text with the one line replaced, or `None` where indexing past the lines makes the operation throw |
| Operate.OperateFails | graph-selector/src/operate/operate.ts:31-32 | the operation fails exactly when the line index is outside the split lines |
| Operate.OperateLines | graph-selector/src/operate/operate.ts:27-34 | when the new line has no line feed, splitting the result gives the old lines with only that line replaced: same count, every other line unchanged |
| Operate.RemoveClassKeepsLines | graph-selector/src/operate/operate.ts:4-7 | with `removeClassFromNode` the line structure of the text is always kept |
| ToCytoscape.ClassNamesSpec | graph-selector/src/toCytoscapeElements.ts:9 | `split(".").join(" ")` equals the character-wise replacement of every dot by a space |
| ToCytoscape.ClassNamesShape | graph-selector/src/toCytoscapeElements.ts:9 | the element classes are as long as the class list and contain no dot |
| ToCytoscape.ToCytoscapeElements | graph-selector/src/toCytoscapeElements.ts:4-24 | the two push loops build `Elements(parsed)`: nothing for no graph, else the node elements then the edge elements |
| ToCytoscape.MapConcatSpec | graph-selector/src/toCytoscapeElements.ts:7-23 | two mapping loops one after the other give one result per input, the first list's images at its indices and the second's after them |
| ToCytoscape.ElementsSpec | graph-selector/src/toCytoscapeElements.ts:6-23 | no graph gives no elements; a graph gives exactly one element per node in node order followed by one per edge in edge order |
| ToCytoscape.NodeElementSpec | graph-selector/src/toCytoscapeElements.ts:7-14 | a node element's classes are its class list with spaces for dots, and its data has every key of the node's data except `classes`, with the same value |
| ToCytoscape.EdgeElementSpec | graph-selector/src/toCytoscapeElements.ts:15-22 | an edge element's data holds `source` and `target` unless the edge's own data has that key, which wins by spread order; every other key but `classes` keeps the edge's value |
| ToCytoscape.ElementDataDistinct | graph-selector/src/toCytoscapeElements.ts:12-20 | element data objects never repeat a key |
| RemoveClassFromNode.RemoveClassFromNode | graph-selector/src/operate/removeClassFromNode.ts:3-24 | the statements compute `RemoveClassFromNodeOf`: indent, edge part, then the rest with the first pattern match removed and trailing whitespace trimmed |
| RemoveClassFromNode.RemoveClassIsRemoveClasses | graph-selector/src/operate/removeClassFromNode.ts:3-24 | removing one class gives the same line as `removeClassesFromNode` with the one-element list |
| RemoveClassFromNode.RemoveClassKeepsEdge | graph-selector/src/operate/removeClassFromNode.ts:5-23 | the indent and the edge part come back verbatim and the rest of the result ends without whitespace |
| RemoveClassFromNode.RemoveClassAbsent | graph-selector/src/operate/removeClassFromNode.ts:18-21 | a class matching nowhere leaves a line without trailing whitespace unchanged |
| RemoveClassFromNode.RemoveClassChars | graph-selector/src/operate/removeClassFromNode.ts:18-23 | every character of the result is a character of the line: nothing is inserted |
| RemoveClassesFromNode.RemoveClassesFromNode | graph-selector/src/operate/removeClassesFromNode.ts:3-34 | the statements, the loop over the names included, compute `RemoveClassesFromNodeOf` |
| RemoveClassesFromNode.RemoveClassesKeepsEdge | graph-selector/src/operate/removeClassesFromNode.ts:13-33 | the indent and the edge part come back verbatim and the rest ends without whitespace |
| RemoveClassesFromNode.RemoveClassesAbsent | graph-selector/src/operate/removeClassesFromNode.ts:26-31 | when no name matches anywhere and the line does not end with whitespace, the line is returned unchanged |
| RemoveClassesFromNode.RemoveClassesChars | graph-selector/src/operate/removeClassesFromNode.ts:26-33 | the result holds only characters of the line, so no line break is added |
| RemoveClassesFromEdge.RemoveClassesFromEdge | graph-selector/src/operate/removeClassesFromEdge.ts:3-47 | the statements compute `RemoveClassesFromEdgeOf`: indent, cleaned edge part, node side, container opening |
| RemoveClassesFromEdge.RemoveClassesKeepsNodeSide | graph-selector/src/operate/removeClassesFromEdge.ts:25-46 | while part of the edge remains, only the edge part changes: the new edge part does not start with whitespace and the line from the edge break on is kept |
| RemoveClassesFromEdge.RemoveClassesEmptiesEdge | graph-selector/src/operate/removeClassesFromEdge.ts:40-46 | an emptied edge part before a node side starting with `:` drops the colon and the whitespace after it |
| RemoveClassesFromEdge.EdgeStart | graph-selector/src/operate/removeClassesFromEdge.ts:13-30 | the edge part cut off the trimmed line starts with a non-space, and with no edge part the node side starts where the trimmed line does |
| RemoveClassesFromEdge.RemoveClassesAbsent | graph-selector/src/operate/removeClassesFromEdge.ts:33-46 | when no name matches and the trimmed line does not start with a colon, the line comes back unchanged |
| RemoveClassesFromEdge.RemoveClassesChars | graph-selector/src/operate/removeClassesFromEdge.ts:33-46 | the result holds only characters of the line |
| ClassPattern.MatchFrom | graph-selector/src/operate/removeClassFromNode.ts:18 | the search from an index finds the first position where any character followed by the name occurs, or -1 |
| ClassPattern.FirstMatch | graph-selector/src/operate/removeClassFromNode.ts:18 | the leftmost match of `new RegExp("\.name")` (the template drops the backslash, so any character then the name), or -1 exactly when there is none |
| ClassPattern.RemoveClassNames | graph-selector/src/operate/removeClassesFromNode.ts:26-28 | the loop applying `replace` once per name computes `RemoveAll` |
| ClassPattern.RemoveFirstMatchSpec | graph-selector/src/operate/removeClassFromNode.ts:18 | the text changes exactly when the pattern matches; then exactly one character and the name are cut out at the first match, and putting them back gives the text |
| ClassPattern.RemoveFirstMatchChars | graph-selector/src/operate/removeClassFromNode.ts:18 | a replacement only deletes characters |
| ClassPattern.RemoveAllAbsent | graph-selector/src/operate/removeClassesFromNode.ts:26-28 | when no name matches, the text is left as it is |
| ClassPattern.RemoveAllChars | graph-selector/src/operate/removeClassesFromNode.ts:26-28 | removing several names only deletes characters |
| ClassPattern.AbsentInside | graph-selector/src/operate/removeClassesFromNode.ts:26-28 | a name matching nowhere in a line matches nowhere in any piece of it |
| ClassPattern.PartialClassRemoved | graph-selector/src/operate/removeClassFromNode.ts:18 | as written: removing `rectangle` from `.roundrectangle` leaves `.roun` |
| ClassPattern.FirstClass | graph-selector/src/operate/removeClassFromNode.ts:18 | corrected pattern: the leftmost whole class `.name` (a dot, the name, then a dot or the end), or -1 exactly when there is none |
| ClassPattern.RemoveClassFromList | graph-selector/src/operate/removeClassFromNode.ts:18 | corrected removal on a list of valid class names deletes exactly the first class equal to the name and nothing of any other class |
| ClassPattern.PartialClassKept | graph-selector/src/operate/removeClassFromNode.ts:18 | corrected removal leaves `.roundrectangle` alone when asked for `rectangle` |
| LineParts.IndentOf | graph-selector/src/operate/addClassToNode.ts:8-9 | the indent is all whitespace, indent plus the trimmed line is the line, and the trimmed line starts with a non-space |
| LineParts.SplitContainer | graph-selector/src/operate/addClassToNode.ts:12-16 | the container opening is ` {` exactly when the line ends with it, and the two pieces put together give the line |
| LineParts.SplitEdge | graph-selector/src/operate/addClassToNode.ts:19-24 | no edge part exactly when there is no edge break; otherwise the edge part ends with a non-backslash and the rest starts with a colon and a space |
| LineParts.SplitFeatures | graph-selector/src/operate/addClassToNode.ts:26-31 | the feature run starts at the first match of the feature pattern (none before it), or is empty when there is no match |
| LineParts.NodeParts | graph-selector/src/operate/addClassToNode.ts:8-31 | indent, edge part, label, feature run and container opening put back together give the line |
| LineParts.SplitNodeLine | graph-selector/src/operate/addClassToNode.ts:8-31 | the reassignments of `line`, `edge` and `features` compute `NodeParts` |
| LineParts.EdgeLine | graph-selector/src/operate/removeClassesFromEdge.ts:13-30 | indent, edge part, rest and container opening put together give the line |
| LineParts.SplitEdgeLine | graph-selector/src/operate/removeClassesFromEdge.ts:13-30 | the statements compute `EdgeLine` |
| LineParts.EdgeCut | graph-selector/src/operate/removeClassFromNode.ts:5-15 | indent, edge part and rest put together give the line |
| LineParts.SplitEdgeCut | graph-selector/src/operate/removeClassFromNode.ts:5-15 | the statements compute `EdgeCut` |
| LineParts.NodePartsFrame | graph-selector/src/operate/addClassToNode.ts:8-31 | the head (indent, edge, label) is a prefix and the container opening a suffix of the line, with the feature run exactly between them |
| LineParts.EdgeLineOfNodeParts | graph-selector/src/operate/addClassesToEdge.ts:8-24 | without the feature split a node line falls apart into the same indent, edge part and container opening |
| LineParts.LabelHasNoFeatures | graph-selector/src/operate/addClassToNode.ts:26-31 | the feature run is empty or starts with a feature mark, possibly after one whitespace character |
| DataToString.DataToStringOf | graph-selector/src/operate/dataToString.ts:9-32 | the `for ... in` loop computes `DataString`: the entries' texts in key order with nothing between them |
| DataToString.AppendEntry | graph-selector/src/operate/dataToString.ts:12-29 | one round of the loop appends exactly the entry's text: `[key]` for `true`, `[key` for `false`, a single-quoted value when the string holds `"`, else a double-quoted one, `=literal]` for a number |
| DataToString.EntryStep | graph-selector/src/operate/dataToString.ts:11-30 | one more entry appends its text to what the earlier entries wrote |
| DataToString.DataStringAppend | graph-selector/src/operate/dataToString.ts:10-31 | no entries write nothing; an appended entry appends its text with no separator |
| DataToString.FalseIsUnterminated | graph-selector/src/operate/dataToString.ts:13-29 | `false` is written as `[key`, which the attribute pattern does not match on its own |
| DataToString.EntryRead | graph-selector/src/operate/dataToString.ts:13-28 | the attribute pattern matches a writable entry's text in full, whatever follows, and reads back its key and value |
| DataToString.DataStringRoundTrip | graph-selector/src/operate/dataToString.ts:9-32 | reading the written text with `getFeatureData`'s attribute loop gives back the same entries in the same order |
| DataToString.AgreesWithStringify | graph-selector/src/operate/dataToString.ts:9-32 | where both can write the data, `dataToString` and `stringify`'s data writer produce the same text |
| DataToString.EmptyDataString | graph-selector/src/operate/dataToString.ts:9-32 | the text is empty exactly when the data is empty |
| AddClassToNode.AddClassToNode | graph-selector/src/operate/addClassToNode.ts:6-46 | the statements compute `AddClassToNodeOf`: the line split into its parts and the feature run rebuilt with the class |
| AddClassToNode.BuildFeatureString | graph-selector/src/operate/addClassToNode.ts:39-43 | the statements append to `newFeatureString` a space, `#id` when there is an id, the classes, `.className` and the data text when there is data |
| AddClassToNode.AddClassFrame | graph-selector/src/operate/addClassToNode.ts:45 | only the feature run changes: the text before it and the container opening after it are kept |
| AddClassToNode.AddClassNoFeatures | graph-selector/src/operate/addClassToNode.ts:33-35 | with no feature run, ` .className` goes right before the container opening and nothing else changes |
| AddClassToNode.ClassRunIsNewRun | graph-selector/src/operate/addClassToNode.ts:33-43 | the run written when there are no features is the one rebuilt from empty features |
| AddClassToNode.NewRunReadBack | graph-selector/src/operate/addClassToNode.ts:37-43 | the rebuilt run reads back as the same id, the classes followed by `.className`, and the same data |
| AddClassToNode.AddClassReadBack | graph-selector/src/operate/addClassToNode.ts:26-45 | the new run reads back as the old run with `.className` after its classes and the same id and data |
| AddClassesToNode.AddClassesToNode | graph-selector/src/operate/addClassesToNode.ts:6-50 | the statements compute `AddClassesToNodeOf` |
| AddClassesToNode.BuildFeatureString | graph-selector/src/operate/addClassesToNode.ts:39-47 | the statements compute `NewFeatureString`: a space, `#id`, the classes, the new class names and the data text |
| AddClassesToNode.BuildClassNameString | graph-selector/src/operate/addClassesToNode.ts:42-45 | the loop computes `ClassNameString`: `.name` for each requested name the class string does not contain as text |
| AddClassesToNode.AddClassesFrame | graph-selector/src/operate/addClassesToNode.ts:34-49 | only the feature run changes: the text before it and the container opening after it are kept |
| AddClassesToNode.ClassNameStringValid | graph-selector/src/operate/addClassesToNode.ts:42-46 | valid classes followed by the written names are still a valid class string |
| AddClassesToNode.AllNew | graph-selector/src/operate/addClassesToNode.ts:33-35 | against an empty class string every name is written, which is `.` followed by the names joined with dots, as the no-features path writes them |
| AddClassesToNode.AddClassesReadBack | graph-selector/src/operate/addClassesToNode.ts:33-49 | the new run reads back as the old one with the written names after its classes, the same id and the same data |
| AddClassesToNode.EmptyRunIsNewRun | graph-selector/src/operate/addClassesToNode.ts:33-47 | the no-features run is the one rebuilt from empty features |
| AddClassesToNode.NewRunReadBack | graph-selector/src/operate/addClassesToNode.ts:37-47 | the rebuilt run reads back as the same id, the classes with the new names after them, and the same data |
| AddClassesToNode.ClassNameStringHolds | graph-selector/src/operate/addClassesToNode.ts:44-45 | each requested name is either contained in the class string or written as `.name` |
| AddClassesToNode.RequestedClassesPresent | graph-selector/src/operate/addClassesToNode.ts:43-46 | afterwards every requested name occurs, as text, in the class string |
| AddClassesToNode.SubstringSkipsClass | graph-selector/src/operate/addClassesToNode.ts:45 | asking for `foo` on `.foobar` writes nothing, and `foo` is then not a class of the run |
| AddClassesToNode.IntendedClassNameString | graph-selector/src/operate/addClassesToNode.ts:42-45 | the loop with a whole-class test in place of the text test writes nothing or a run of `.name` pieces |
| AddClassesToNode.IntendedHolds | graph-selector/src/operate/addClassesToNode.ts:43-45 | with the whole-class test each requested name is a class already or is written |
| AddClassesToNode.IntendedClassesPresent | graph-selector/src/operate/addClassesToNode.ts:43 | with the whole-class test every requested name is a class of the run afterwards |
| AddClassesToEdge.EdgeFeatures | graph-selector/src/operate/addClassesToEdge.ts:30-38 | the feature run and the rest put together give the edge part, and a run is cut off only when the features index is 0 and then it is the pattern's match |
| AddClassesToEdge.AddClassesToEdge | graph-selector/src/operate/addClassesToEdge.ts:6-63 | the statements compute `AddClassesToEdgeOf` |
| AddClassesToEdge.SplitEdgeFeatures | graph-selector/src/operate/addClassesToEdge.ts:30-38 | the statements compute `EdgeFeatures` |
| AddClassesToEdge.WithEdgeFrame | graph-selector/src/operate/addClassesToEdge.ts:40-62 | the indent and everything from the edge break on are kept; the new edge part is followed by `: ` exactly when the line had no edge part |
| AddClassesToEdge.AddClassesNoEdge | graph-selector/src/operate/addClassesToEdge.ts:27-44 | a line with no edge part becomes the indent, `.` and the names joined with dots, `: `, and the rest of the line |
| AddClassesToEdge.NoEdgeText | graph-selector/src/operate/addClassesToEdge.ts:43 | for an empty edge part the new edge part is the dotted names alone |
| AddClassesToEdge.AddClassesBeforeEdgeText | graph-selector/src/operate/addClassesToEdge.ts:42-44 | without a feature run the dotted names come first, then one space and the trimmed edge text when there is any |
| AddClassesToEdge.EdgeWithFeaturesShape | graph-selector/src/operate/addClassesToEdge.ts:60 | the trimmed rebuilt run and the trimmed edge text are joined with one space, an empty one dropped |
| AddClassesToEdge.AddClassesToEdgeReadBack | graph-selector/src/operate/addClassesToEdge.ts:47-60 | the trimmed rebuilt run reads back as the old run with the written names after its classes, the same id and the same data |
| AddDataAttributeToNode.AddDataAttributeToNode | graph-selector/src/operate/addDataAttributeToNode.ts:11-60 | the statements compute `AddDataAttributeToNodeOf` |
| AddDataAttributeToNode.BuildFeatureString | graph-selector/src/operate/addDataAttributeToNode.ts:54-57 | the statements compute `NewFeatureString`: a space, `#id`, the classes and the data text with the attribute set |
| AddDataAttributeToNode.AddDataFrame | graph-selector/src/operate/addDataAttributeToNode.ts:48-59 | only the feature run changes |
| AddDataAttributeToNode.SetWritable | graph-selector/src/operate/addDataAttributeToNode.ts:57 | setting an attribute that reads back as itself keeps the data writable |
| AddDataAttributeToNode.EmptyRunIsNewRun | graph-selector/src/operate/addDataAttributeToNode.ts:46-50 | the run written with no features is the one rebuilt from empty features |
| AddDataAttributeToNode.NewRunReadBack | graph-selector/src/operate/addDataAttributeToNode.ts:52-57 | the rebuilt run reads back as the same id and classes and the data with the attribute set |
| AddDataAttributeToNode.AddDataReadBack | graph-selector/src/operate/addDataAttributeToNode.ts:46-59 | the new run reads back as the old one with the attribute set |
| AddDataAttributeToNode.AddDataValue | graph-selector/src/operate/addDataAttributeToNode.ts:57 | read back, the attribute has the new value and every other key its old one; an existing key keeps its place, a new one comes last |
| RemoveDataAttributeFromNode.RemoveDataAttributeFromNode | graph-selector/src/operate/removeDataAttributeFromNode.ts:9-51 | the statements compute `RemoveDataAttributeFromNodeOf` |
| RemoveDataAttributeFromNode.BuildFeatureString | graph-selector/src/operate/removeDataAttributeFromNode.ts:42-46 | the statements, with `delete data[name]`, compute `NewFeatureString` |
| RemoveDataAttributeFromNode.RemoveDataNoFeatures | graph-selector/src/operate/removeDataAttributeFromNode.ts:36-38 | a line without a feature run comes back unchanged |
| RemoveDataAttributeFromNode.RemoveDataShape | graph-selector/src/operate/removeDataAttributeFromNode.ts:48-50 | with a feature run the indent is kept and what follows starts and ends with a non-space |
| RemoveDataAttributeFromNode.RemoveWritable | graph-selector/src/operate/removeDataAttributeFromNode.ts:45 | deleting an attribute keeps the data writable |
| RemoveDataAttributeFromNode.RemoveDataReadBack | graph-selector/src/operate/removeDataAttributeFromNode.ts:40-46 | the new run reads back as the same id and classes and the data without the attribute |
| RemoveDataAttributeFromNode.RemoveDataValue | graph-selector/src/operate/removeDataAttributeFromNode.ts:45 | read back, the attribute is gone and every other key keeps its value |
| FeatureData.IdCharRun | graph-selector/src/getFeatureData.ts:14-21 | the run of `[\w-]` characters at the start is maximal: it ends at the end of the text or before a character outside the class |
| FeatureData.KeyRun | graph-selector/src/getFeatureData.ts:33 | the key run `[^\]=]+` ends at the end of the text or before `]` or `=` |
| FeatureData.RunsAreMaximal | graph-selector/src/getFeatureData.ts:33 | every character inside the id, key and quoted-value runs belongs to its class |
| FeatureData.QuotedRun | graph-selector/src/getFeatureData.ts:33 | a quoted alternative, when it matches, is the quote, a value, the same quote and `]` |
| FeatureData.ValuePrefix | graph-selector/src/getFeatureData.ts:33 | a value alternative, when one matches, consumes a non-empty prefix ending with the closing `]` |
| FeatureData.AttrPrefix | graph-selector/src/getFeatureData.ts:32-33 | a match of the attribute pattern starts with `[`, ends with `]`, and its key is the non-empty text right after the `[` |
| FeatureData.AttrDescriptor | graph-selector/src/getFeatureData.ts:39-54 | no value stores `true`; a quoted value stores its text; a bare value stores a number exactly when `Number` accepts it, and its text exactly when it does not |
| FeatureData.NextAttr | graph-selector/src/getFeatureData.ts:35 | the next match `exec` finds lies at or after the search position, inside the text, and is non-empty |
| FeatureData.ReadFromDistinct | graph-selector/src/getFeatureData.ts:35-55 | the attribute loop never makes a key appear twice in the data object |
| FeatureData.AttrMatchesAt | graph-selector/src/getFeatureData.ts:35 | a match at the search position is the first one found, and the search goes on right after it |
| FeatureData.ReadFromIsAssign | graph-selector/src/getFeatureData.ts:35-55 | the attribute loop assigns the matches of the pattern in the order `exec` finds them |
| FeatureData.IdGroup | graph-selector/src/getFeatureData.ts:19 | the id group is a prefix of the text and, when present, `#` followed by at least one character |
| FeatureData.ClassesGroup | graph-selector/src/getFeatureData.ts:20 | the class group is a prefix of the text |
| FeatureData.AttributesGroup | graph-selector/src/getFeatureData.ts:21 | the attribute group is a prefix of the text |
| FeatureData.FeatureRunAt | graph-selector/src/getFeatureData.ts:14-24 | the whole feature match (id, classes, attributes) is a prefix of the line |
| FeatureData.RemoveShortens | graph-selector/src/getFeatureData.ts:16-24 | a round that removes a non-empty match leaves a shorter line, so the extraction loop ends |
| FeatureData.GetFeatureData | graph-selector/src/getFeatureData.ts:7-64 | the two loops compute `FeatureDataOf`, and the data object has distinct keys |
| FeatureData.ReadAttributes | graph-selector/src/getFeatureData.ts:28-56 | the attribute loop computes `DataOf` |
| FeatureData.ReadStep | graph-selector/src/getFeatureData.ts:35-55 | no further match ends the loop with the data unchanged; a match stores its entry and the search goes on after it |
| FeatureData.FeatureDataDistinct | graph-selector/src/getFeatureData.ts:28-55 | the data object `getFeatureData` returns never repeats a key |
| FeatureData.PlainText | graph-selector/src/getFeatureData.ts:8-63 | text that does not start with `#`, `.` or `[` after trimming gives no id, no classes, no data and the trimmed text as the rest |
| FeatureData.IdOnly | graph-selector/src/getFeatureData.ts:19-24 | `#x` gives the id `x` without its `#`, and nothing is left over |
| FeatureData.ClassOnly | graph-selector/src/getFeatureData.ts:20-24 | `.c` gives the class string `.c`, leading dot kept |
| FeatureData.WholeRun | graph-selector/src/getFeatureData.ts:14-29 | a trimmed text that is one feature match in full gives that match's id, classes and data, with nothing left over |
| FeatureData.SingleAttribute | graph-selector/src/getFeatureData.ts:29-55 | a text that is one attribute match gives exactly that entry |
| FeatureData.FlagAttribute | graph-selector/src/getFeatureData.ts:39-44 | `[k]` gives `k: true`, for any key without `]` or `=`, emoji included |
| FeatureData.AttrPrefixWithValue | graph-selector/src/getFeatureData.ts:33 | `[k=` followed by a value alternative that closes the bracket is one match with that key and value |
| FeatureData.QuotedAttribute | graph-selector/src/getFeatureData.ts:46-54 | `[k='v']` and `[k="v"]` give the string `v` even when it reads as a number; `v` may hold spaces, brackets, line feeds, tabs and emoji |
| FeatureData.BareAttribute | graph-selector/src/getFeatureData.ts:46-54 | `[k=v]` with a bare `v` gives a number exactly when `Number(v)` is not NaN, and the string `v` otherwise |
| FeatureData.LaterAttributeWins | graph-selector/src/getFeatureData.ts:54 | a key holds the value of its last match; a key with no match keeps its old value |
| FeatureData.DataOfLastWins | graph-selector/src/getFeatureData.ts:35-55 | in the data object of an attribute string each key holds the value of its last attribute, and keys with no attribute are absent |
| FeatureData.LastWithKey | graph-selector/src/getFeatureData.ts:54 | the index found holds the key and no later match has it |
| FeatureText.ClassesGroupConcat | graph-selector/src/getFeatureData.ts:20 | a full class string followed by text that cannot continue a class is read as itself followed by what the rest gives |
| FeatureText.AddClass | graph-selector/src/operate/addClassToNode.ts:41-42 | a full class string followed by `.className` is still a full class string |
| FeatureText.ClassesGroupValid | graph-selector/src/getFeatureData.ts:20 | whatever class group is read, it is a full class string |
| FeatureText.FeatureRunValid | graph-selector/src/getFeatureData.ts:19-20 | the id of a feature match without its `#` is a valid id, and its class group a full class string |
| FeatureText.ExtractValid | graph-selector/src/getFeatureData.ts:14-25 | the id and classes the extraction loop keeps are always a valid id and a full class string |
| FeatureText.FeaturesValid | graph-selector/src/getFeatureData.ts:7-64 | what `getFeatureData` returns has a valid id and a full class string, so it can be written back |
| FeatureText.ClassesChars | graph-selector/src/getFeatureData.ts:20 | every character of a class group is a dot or a `[\w-]` character |
| FeatureText.DataStringGroup | graph-selector/src/operate/dataToString.ts:9-32 | the text `dataToString` writes for writable data is read in full as consecutive attributes |
| FeatureText.DataStringStart | graph-selector/src/operate/dataToString.ts:13 | attribute text starts with `[`, so no class is read from it |
| FeatureText.DataStringEnd | graph-selector/src/operate/dataToString.ts:13-28 | the attribute text of non-empty writable data ends with `]` |
| FeatureText.FeatureRunOfText | graph-selector/src/operate/addClassToNode.ts:39-43 | on a written run the feature pattern's groups are the id text, the classes and the attribute text |
| FeatureText.TextTrimmed | graph-selector/src/operate/addClassesToEdge.ts:60 | a written run starts and ends with a non-space, so trimming keeps it as it is |
| FeatureText.TextStart | graph-selector/src/operate/addClassToNode.ts:39-43 | a written run starts with `#`, `.` or `[` |
| FeatureText.TextEnd | graph-selector/src/operate/addClassToNode.ts:39-43 | a written run ends with a non-space |
| FeatureText.ExtractText | graph-selector/src/getFeatureData.ts:14-25 | on a whole written run the extraction loop removes everything in one round |
| FeatureText.FeatureTextRoundTrip | graph-selector/src/getFeatureData.ts:7-64 | `getFeatureData` on a written run gives back its id, classes and data, with nothing left over |
| FeatureText.LeadingSpaceIgnored | graph-selector/src/getFeatureData.ts:8 | a leading space makes no difference to what is read |
| FeatureText.TrimmedRead | graph-selector/src/getFeatureData.ts:8 | reading the trimmed text is reading the text |
| JsNumber.DigitsAreNumeric | graph-selector/src/getFeatureData.ts:51 | a non-empty run of digits is accepted by `Number` (`[hello=1]`) |
| JsNumber.FractionIsNumeric | graph-selector/src/getFeatureData.ts:51 | digits, a point and digits are accepted (`[hello=1.1]`) |
| JsNumber.LetterIsNotNumeric | graph-selector/src/getFeatureData.ts:51 | text starting with a letter other than `I` is refused (`[hello=world]`) |
| JsNumber.DigitsZero | graph-selector/src/parse.ts:186-190 | a run of digits is the number zero, which is falsy, exactly when every digit is `0` |
| Types.KeyIndexFirst | graph-selector/src/types.ts:15-17 | no entry before the key's index has the key, and the index is the length exactly when no entry has it |
| Types.GetSpec | graph-selector/src/types.ts:15-17 | reading a key is undefined exactly when no entry has it, and with distinct keys gives that entry's value |
| Types.Set | graph-selector/src/getFeatureData.ts:54 | after `d[k] = v` reading `k` gives `v` |
| Types.GetSet | graph-selector/src/getFeatureData.ts:54 | assigning one key leaves every other key as it was |
| Types.SetKeys | graph-selector/src/getFeatureData.ts:54 | assigning an existing key keeps the key order; assigning a new key appends the entry |
| Types.SetDistinct | graph-selector/src/getFeatureData.ts:54 | assignment keeps the keys distinct |
| Types.Remove | graph-selector/src/operate/removeDataAttributeFromNode.ts:45 | after `delete d[k]` reading `k` is undefined |
| Types.RemoveSpec | graph-selector/src/operate/removeDataAttributeFromNode.ts:45 | deleting a key keeps every other key's value and the keys distinct, adds no entry, and changes nothing when the key is absent |
| Types.GetWithout | graph-selector/src/toCytoscapeElements.ts:10 | the rest object of a destructuring has no entry for the named keys and the original value for every other key |
| Types.GetAssign | graph-selector/src/parse.ts:209-214 | after an object spread a key holds its value from the later object if it has one, else from the earlier |
| JsString.TrimIsCore | graph-selector/src/getFeatureData.ts:8 | `trim` gives a slice of the input with only whitespace cut off at both ends, starting and ending with a non-space, and empty exactly when the input is all whitespace |
| JsString.TrimTrim | graph-selector/src/getFeatureData.ts:24 | trimming twice is trimming once |
| JsString.IndexOf | graph-selector/src/operate/addClassesToNode.ts:45 | `indexOf` gives the first position where the text occurs, or -1 exactly when it occurs nowhere |
| JsString.Split | graph-selector/src/operate/operate.ts:27 | `split` on one character gives at least one piece and no piece holds the separator |
| JsString.JoinSplit | graph-selector/src/operate/operate.ts:27-34 | splitting on a character and joining with it gives back the text |
| JsString.SplitJoin | graph-selector/src/operate/operate.ts:27-34 | joining pieces without the separator and splitting again gives the pieces back |
| JsString.MapSeqAt | graph-selector/src/toCytoscapeElements.ts:7-22 | the mapped sequence has the image of the input's element at every position |
| JsString.NatToStringInjective | graph-selector/src/parse.ts:186-190 | distinct numbers have distinct decimal texts, so generated ids from distinct counters differ |
| Parse.SetSlot | graph-selector/src/parse.ts:336-339 | writing slot `i` of a scope sets that slot and grows the scope to `i + 1` slots when it was shorter |
| Parse.SetSlotOthers | graph-selector/src/parse.ts:336-339 | writing one slot leaves every other slot as it was |
| Parse.FindParent | graph-selector/src/parse.ts:406-415 | the while loop computes `ParentBelow`: the first non-empty slot walking down from the slot just below the indent |
| Parse.ParentBelowSpec | graph-selector/src/parse.ts:406-415 | the parent is nothing or a non-empty slot; nothing exactly when every slot below the indent is empty; otherwise a slot below the indent with only empty slots between it and the indent |
| Parse.ToPointers | graph-selector/src/parse.ts:291-301 | one pending edge per pointer of the line |
| Parse.MapLinesAt | graph-selector/src/parse.ts:59-60 | line `k` is handled with line number `k + 1` |
| Parse.ViewAt | graph-selector/src/parse.ts:59-134 | the reading of line `k` is the reading of `lines[k]` with line number `k + 1` |
| Parse.AddTargets | graph-selector/src/parse.ts:291-301 | the loop appends to the queue one pending edge per target, in order |
| Parse.AddFromPointers | graph-selector/src/parse.ts:306-331 | the nested loops append, for each parent pointer, the edge to the declared node if there is one and one per pointer of the line |
| Parse.AddNodeEdges | graph-selector/src/parse.ts:256-301 | an immediate edge from the parent node under its id or `<parent>-<node>-1`, DUPLICATE_EDGE_ID when that id is taken, then the pending edges |
| Parse.AddEdges | graph-selector/src/parse.ts:252-333 | the edges of a content line, computed as `EdgesOf` |
| Parse.RegisterNode | graph-selector/src/parse.ts:204-249 | the id is registered, the node pushed when the line declares one, and the container parent and scope stacks pushed or popped as `Register` says |
| Parse.ContentLine | graph-selector/src/parse.ts:100-341 | the body of the line loop for a content line computes `ContentStep` |
| Parse.ScanLine | graph-selector/src/parse.ts:59-341 | the body of the line loop computes `Step` |
| Parse.Scan | graph-selector/src/parse.ts:59-342 | the line loop computes `ScanFrom` over the readings of the lines |
| Parse.ReadView | graph-selector/src/parse.ts:59-134 | line `k + 1` read at its place |
| Parse.ScanStep | graph-selector/src/parse.ts:59-342 | a line read and stepped without error moves the scan to the next line |
| Parse.ScanFails | graph-selector/src/parse.ts:113-200 | a line that cannot be read, or whose step throws, ends the scan with that error |
| Parse.Select | graph-selector/src/parse.ts:346-351 | `filter` keeps no more entries than it is given |
| Parse.FreshFrom | graph-selector/src/parse.ts:365-370 | the counter found is at least the start and its candidate id is not taken |
| Parse.PairData | graph-selector/src/parse.ts:357-372 | the data of a resolved edge always has a truthy id |
| Parse.DistinctFit | graph-selector/src/parse.ts:367 | distinct values all found in the id list are no more than it has entries |
| Parse.CandidatesFit | graph-selector/src/parse.ts:365-370 | when the candidates for counters 1 to `n` are all taken, the id list has at least `n` entries, so the loop ends |
| Parse.NextEdgeId | graph-selector/src/parse.ts:365-371 | the while loop computes `FreshEdgeId` |
| Parse.ResolveEdge | graph-selector/src/parse.ts:355-395 | the body of the inner resolution loop computes `ResolvePair` |
| Parse.ResolveEntry | graph-selector/src/parse.ts:346-397 | the two nested loops over matched sources and targets compute `ResolveSources` |
| Parse.Resolve | graph-selector/src/parse.ts:345-398 | the resolution loop computes `ResolveFrom` |
| Parse.Parse | graph-selector/src/parse.ts:27-404 | `parse` computes `ParseOf`: the line scan, then the resolution of the pending edges |
| ParseFacts.ViewsOfOk | graph-selector/src/parse.ts:59-184 | every line read is well formed or fails on its own line with a line-level code |
| ParseFacts.ParentRegistered | graph-selector/src/parse.ts:101 | when the parent of a line is a node id, that id is registered |
| ParseFacts.WriteSlotInv | graph-selector/src/parse.ts:336-341 | writing a registered id or pointers into a slot keeps the scopes registered and changes nothing else |
| ParseFacts.RegisterInv | graph-selector/src/parse.ts:204-249 | registering a line keeps the scan invariant, appends exactly the line's id and leaves edges, edge ids and queue alone |
| ParseFacts.EdgesWithInv | graph-selector/src/parse.ts:252-333 | the edges a line adds join registered ids and take edge ids not used before |
| ParseFacts.ContentInv | graph-selector/src/parse.ts:100-341 | a content line that succeeds keeps the scan invariant |
| ParseFacts.PointerLineInv | graph-selector/src/parse.ts:92-98 | a zero-indent pointer line keeps the scan invariant |
| ParseFacts.EdgesFailure | graph-selector/src/parse.ts:263-273 | adding edges fails only with DUPLICATE_EDGE_ID on the current line |
| ParseFacts.ContentFailure | graph-selector/src/parse.ts:192-273 | a content line fails only on itself |
| ParseFacts.StepInv | graph-selector/src/parse.ts:59-341 | a step keeps the invariant or fails on its own line |
| ParseFacts.ScanSpec | graph-selector/src/parse.ts:59-342 | the scan keeps the invariant to the last line, or fails with a `ParseError` carrying one of the codes on one later line given as start and end line |
| ParseFacts.DuplicateNodeId | graph-selector/src/parse.ts:192-202 | re-declaring a registered id fails on that line with DUPLICATE_NODE_ID, and that code arises only so |
| ParseFacts.NodeDataSpec | graph-selector/src/parse.ts:208-234 | the node's own `[id=…]`, `[label=…]`, `[classes=…]` attributes win over the line's id, label and classes; a container line is marked `isParent`; inside a container the node names it as `parent` |
| ParseFacts.LiteralOverridden | graph-selector/src/parse.ts:209-214 | in `{k1: v1, k2: v2, k3: v3, ...src}` a key of `src` wins and the literal gives the rest |
| ParseFacts.EdgeDataSpec | graph-selector/src/parse.ts:281-286 | the edge label's attributes win over the immediate edge's id, label and classes |
| ParseFacts.NodeOfLine | graph-selector/src/parse.ts:204-237 | a declaring line adds exactly one node, recording its line number; others add none; the id is registered in both cases |
| ParseFacts.EdgesBookkeeping | graph-selector/src/parse.ts:252-333 | adding edges changes only the edges, the edge ids and the pending queue |
| ParseFacts.ContainerLine | graph-selector/src/parse.ts:241-249 | a line opening a container pushes its id as container parent and, unless it also closes one, a fresh empty scope |
| ParseFacts.EdgesOfLine | graph-selector/src/parse.ts:252-333 | no parent gives no edges; a parent node gives the immediate edge to a declared node and one pending edge per pointer; parent pointers give pending edges only |
| ParseFacts.DuplicateImmediateEdge | graph-selector/src/parse.ts:259-273 | an immediate edge whose id is taken fails the line with DUPLICATE_EDGE_ID |
| ParseFacts.PointerLineScope | graph-selector/src/parse.ts:92-98 | after a zero-indent pointer line every deeper line has those pointers as its parent |
| ParseFacts.ToPointersSpec | graph-selector/src/parse.ts:291-301 | the pending edge at `j` goes from the source to the `j`-th pointer |
| ParseFacts.FromPointersCount | graph-selector/src/parse.ts:306-331 | under parent pointers the queue grows by the number of sources times (one for a declared node plus the line's pointers) |
| ParseFacts.FromPointersPairs | graph-selector/src/parse.ts:320-330 | every (source pointer, target pointer) pair has its pending edge |
| ParseFacts.FromPointersToNode | graph-selector/src/parse.ts:307-317 | a declared node gets a pending edge from each source pointer |
| ParseFacts.SelectSpec | graph-selector/src/parse.ts:428-439 | `filter` keeps exactly the matching entries |
| ParseFacts.FreshFromMinimal | graph-selector/src/parse.ts:365-370 | every counter below the one found has its candidate taken |
| ParseFacts.FreshEdgeIdSpec | graph-selector/src/parse.ts:363-372 | a generated edge id is `<source>-<target>-<n>` for the least `n >= 1` whose id is not taken |
| ParseFacts.PendingDataSpec | graph-selector/src/parse.ts:357-361 | in a resolved edge's data the `label` key is set last, so it holds the edge label whatever the attributes say; the edge label's `id` attribute wins over the queued id |
| ParseFacts.GeneratedIdNeverClashes | graph-selector/src/parse.ts:363-395 | a pair whose edge needs a generated id always becomes an edge |
| ParseFacts.ResolvePairSpec | graph-selector/src/parse.ts:355-395 | one pair adds one edge under an id not yet taken, or is skipped because its id is taken and its line is empty, or fails naming its own line |
| ParseFacts.ResolveTargetsSpec | graph-selector/src/parse.ts:354-396 | the inner loop keeps the edge ids distinct and the earlier edges |
| ParseFacts.ResolveSourcesSpec | graph-selector/src/parse.ts:353-397 | the outer loop over sources keeps the edge ids distinct and the earlier edges |
| ParseFacts.ResolveFromSpec | graph-selector/src/parse.ts:345-398 | resolution keeps edge ids distinct, keeps the edges it started with, and fails only on a taken id naming an existing line |
| ParseFacts.ParseLinesSpec | graph-selector/src/parse.ts:27-404 | a failure names one existing line as start and end and carries one of the six codes; a success has the nodes of a scan that keeps the scan invariant (nodes in line order, no non-empty id registered twice, immediate edges between registered ids), and its edges start with the scan's immediate edges |
| ParseFacts.ParseSpec | graph-selector/src/parse.ts:27-404 | for the lines of a text: a failure names one existing line and carries one of the six codes; a success has the nodes of a scan that keeps the scan invariant, in line order, and its edges start with the scan's immediate edges |
| ParseLine.Lines | graph-selector/src/parse.ts:31-38 | one line per piece of the URL-escaped text split on line feeds |
| ParseLine.UrlsRoundTrip | graph-selector/src/parse.ts:32-152 | a text without backslashes comes through the URL escaping and the label unescaping unchanged: URLs in labels keep their `//` |
| ParseLine.ReadLine | graph-selector/src/parse.ts:59-184 | the loop body up to the point where the scan state is consulted computes `AnalyzeLine` |
| ParseLine.ReadContent | graph-selector/src/parse.ts:103-184 | the edge label, its check, the node part and the pointer checks compute `Describe` |
| ParseLine.CheckNodeLine | graph-selector/src/parse.ts:123-184 | the node part and the three pointer checks compute `CheckPointers` |
| ParseLine.ReadNodePart | graph-selector/src/parse.ts:123-160 | the feature run, pointers and label of the trimmed line, and whether it declares a node, compute `NodePartOf` |
| ParseLine.NodePartIds | graph-selector/src/parse.ts:154-160 | a line with an id declares a node, and a container line always does |
| ParseLine.DescribeSpec | graph-selector/src/parse.ts:103-184 | a content line read without error is well formed; an error names the line |
| ParseLine.BlankLine | graph-selector/src/parse.ts:65 | a line is blank, producing nothing, exactly when it is all whitespace |
| ParseLine.AnalyzeLineSpec | graph-selector/src/parse.ts:59-184 | a line that passes the checks is well formed; a line that fails names itself as start and end line and carries one of the four line-level codes |
| ParseLine.CheckPointersOrder | graph-selector/src/parse.ts:137-184 | a line passes the pointer rules exactly when it has no pointer, or one pointer and neither declares a node nor opens a container; the first rule broken gives the code |
| ParseLine.EdgeLabelFirst | graph-selector/src/parse.ts:111-121 | an edge label at indent 0 throws EDGE_LABEL_WITHOUT_PARENT before any pointer rule, with end column the label length plus one |
| ParseLine.GeneratedIdsDiffer | graph-selector/src/parse.ts:186-190 | ids generated for different lines differ |
| ParseLine.GhostContainer | graph-selector/src/parse.ts:156-160 | a line that is only `{` opens a container around a ghost node `n<line>` with an empty label |
| MatchAndRemovePointers.WordRun | graph-selector/src/matchAndRemovePointers.ts:6 | the `\w` run is maximal |
| MatchAndRemovePointers.NonCloseRun | graph-selector/src/matchAndRemovePointers.ts:6 | the `[^)）]` run ends at the end or before a closing parenthesis |
| MatchAndRemovePointers.IdPayload | graph-selector/src/matchAndRemovePointers.ts:6 | the id alternative, when it matches, ends with a closing parenthesis and gives a non-empty id pointer |
| MatchAndRemovePointers.ClassPayload | graph-selector/src/matchAndRemovePointers.ts:6 | the class alternative, when it matches, ends with a closing parenthesis and gives a non-empty class pointer |
| MatchAndRemovePointers.LabelPayload | graph-selector/src/matchAndRemovePointers.ts:6 | the label alternative, when it matches, ends with a closing parenthesis and gives a non-empty label pointer |
| MatchAndRemovePointers.Payload | graph-selector/src/matchAndRemovePointers.ts:6-19 | the first alternative that matches, ending after a closing parenthesis, with a non-empty value |
| MatchAndRemovePointers.MatchAt | graph-selector/src/matchAndRemovePointers.ts:6 | a match tried at a position starts there and has a non-empty pointer |
| MatchAndRemovePointers.NextMatch | graph-selector/src/matchAndRemovePointers.ts:10 | the next match from `lastIndex` lies at or after it and inside the line |
| MatchAndRemovePointers.MatchAndRemovePointers | graph-selector/src/matchAndRemovePointers.ts:3-28 | the loop computes `PointersOf` |
| MatchAndRemovePointers.Matches | graph-selector/src/matchAndRemovePointers.ts:10 | every match found lies inside the line after the start position |
| MatchAndRemovePointers.MatchesInOrder | graph-selector/src/matchAndRemovePointers.ts:10-26 | the matches do not overlap and come left to right |
| MatchAndRemovePointers.ScanPointers | graph-selector/src/matchAndRemovePointers.ts:10-20 | the pointers come out one per match, in match order |
| MatchAndRemovePointers.ScanBounds | graph-selector/src/matchAndRemovePointers.ts:10-26 | every pointer value is non-empty and the residual is never longer than the line |
| MatchAndRemovePointers.NoParenthesis | graph-selector/src/matchAndRemovePointers.ts:6-27 | a line without an opening parenthesis yields no pointers and is returned as it is |
| MatchAndRemovePointers.Unescaped | graph-selector/src/matchAndRemovePointers.ts:6 | an opening parenthesis after a backslash is never matched: such a line is returned as it is |
| MatchAndRemovePointers.EscapedParentheses | graph-selector/src/matchAndRemovePointers.ts:6 | `\(x\)` is left alone |
| MatchAndRemovePointers.WholeLine | graph-selector/src/matchAndRemovePointers.ts:6-27 | a line that is one parenthesised pointer gives that pointer and an empty residual |
| MatchAndRemovePointers.CharBeforePointerRemoved | graph-selector/src/matchAndRemovePointers.ts:6-25 | the one character before `(` belongs to the match and is removed with it: `a(#x)` leaves an empty residual |
| MatchAndRemovePointers.IdPointerLine | graph-selector/src/matchAndRemovePointers.ts:13-14 | `(#x)` gives the id pointer `x` and an empty residual, with full-width parentheses alike |
| MatchAndRemovePointers.ClassPointerLine | graph-selector/src/matchAndRemovePointers.ts:15-16 | `(.x)` with a letter after the dot gives the class pointer `x` |
| MatchAndRemovePointers.LabelPointerLine | graph-selector/src/matchAndRemovePointers.ts:17-18 | any other payload gives a label pointer holding it verbatim |
| Stringify.EscapeChar | graph-selector/src/stringify.ts:97-107 | each character becomes at least one character |
| Stringify.EscapeLabelEach | graph-selector/src/stringify.ts:97-107 | the newline pass never sees a newline the first pass made, so the two passes act character by character |
| Stringify.EscapeLabelSpec | graph-selector/src/stringify.ts:97-107 | an escaped label holds no newline, is no shorter, has a backslash before every `: [ ] ( )`, and a label without backslashes is read back exactly by the parser's unescaping |
| Stringify.BackslashLabelsCollide | graph-selector/src/stringify.ts:97-107 | backslashes are not escaped: the labels `\n` (two characters) and a newline are written alike |
| Stringify.EntryValueRead | graph-selector/src/stringify.ts:89-91 | the value the attribute reader sees in a printable entry stands for the value written |
| Stringify.EntryPrefix | graph-selector/src/stringify.ts:88-92 | the attribute pattern matches a printable entry's text in full, whatever follows, with its key and value |
| Stringify.EntryTexts | graph-selector/src/stringify.ts:87-93 | one text per entry |
| Stringify.PiecesReadAll | graph-selector/src/stringify.ts:87-94 | texts each matched in full at their place are read one after the other |
| Stringify.ReadPieces | graph-selector/src/stringify.ts:87-94 | the attribute loop over consecutive fully matched pieces assigns their matches |
| Stringify.MatchesOfPieces | graph-selector/src/stringify.ts:87-94 | the matches found in consecutive pieces are the pieces' matches |
| Stringify.AssignEntries | graph-selector/src/stringify.ts:87-94 | assigning matches that name fresh, distinct keys appends the entries they name |
| Stringify.EntriesMatch | graph-selector/src/stringify.ts:87-94 | each entry text is matched in full whatever entries follow |
| Stringify.StringifyDataRoundTrip | graph-selector/src/stringify.ts:86-95 | reading the attributes `stringifyData` writes gives back the same entries in the same order |
| Stringify.FalseReadsAsTrue | graph-selector/src/stringify.ts:89 | `false` is written as a flag, which reads back as `true` |
| Stringify.FindNode | graph-selector/src/stringify.ts:39 | a node found is one of the nodes |
| Stringify.FindNodeSpec | graph-selector/src/stringify.ts:39 | `find` gives the first node with the id, and nothing exactly when no node has it |
| Stringify.BlockAt | graph-selector/src/stringify.ts:8-76 | the block of node `k` is that node's line and its edge lines |
| Stringify.EdgeLinesOf | graph-selector/src/stringify.ts:37-75 | the inner loop computes `EdgeLines`: one line per outgoing edge whose target is a node |
| Stringify.NodeBlockOf | graph-selector/src/stringify.ts:9-75 | the node's line followed by the lines of its outgoing edges |
| Stringify.StringifyGraph | graph-selector/src/stringify.ts:6-80 | `stringify` computes `StringifyOf`: the node blocks in node order joined with line feeds |
| Stringify.EmptyGraph | graph-selector/src/stringify.ts:7-79 | a graph without nodes is written as the empty text, whatever its edges |
| Stringify.OutgoingSpec | graph-selector/src/stringify.ts:36 | the edges leaving a node are exactly the edges with that source, in order |
| Stringify.TargetCount | graph-selector/src/stringify.ts:39-40 | no more edges count than there are |
| Stringify.TargetCountAll | graph-selector/src/stringify.ts:39-40 | every edge counts exactly when every target is a node |
| Stringify.EdgeLineShape | graph-selector/src/stringify.ts:68-73 | an edge line starts with two spaces and ends with the `)` of the wrapped link |
| Stringify.EdgeLinesSpec | graph-selector/src/stringify.ts:37-75 | one edge line per edge whose target is a node, each of edge-line shape |
| Stringify.BlocksSpec | graph-selector/src/stringify.ts:8-76 | the block of node `k` comes after the blocks before it and before those after it, and starts with the node's own line |
| Stringify.BlocksLength | graph-selector/src/stringify.ts:8-33 | there are at least as many lines as nodes |
| Stringify.StringifyLines | graph-selector/src/stringify.ts:79 | when no line holds a line feed, splitting the text on line feeds gives the lines back |
| Stringify.PlainNodeLine | graph-selector/src/stringify.ts:14-32 | a node whose id is its label, with no classes and no other data, is written as its escaped label |
| Stringify.ClassSelectorsOf | graph-selector/src/stringify.ts:22-26 | space-separated classes are written as each class after a dot |
| ToMermaid.GetSafeSpec | graph-selector/src/toMermaid.ts:7-9 | a safe name holds no whitespace, is empty exactly when the name is, is never longer, and is the name itself when it has no whitespace |
| ToMermaid.GetSafeIdempotent | graph-selector/src/toMermaid.ts:7-9 | making a safe name safe again changes nothing |
| ToMermaid.EscapeHtmlChar | graph-selector/src/toMermaid.ts:34-41 | each character becomes at least one character |
| ToMermaid.GetSafeLabelEach | graph-selector/src/toMermaid.ts:34-41 | since `&` is replaced first, no entity a later pass writes is escaped again: each character is escaped once |
| ToMermaid.EscapeHtmlRoundTrip | graph-selector/src/toMermaid.ts:34-41 | every label is read back from its escaped form |
| ToMermaid.EscapeHtmlShape | graph-selector/src/toMermaid.ts:34-41 | an escaped text holds none of `< > " '`, is no shorter, and holds a line feed exactly when the input does |
| ToMermaid.GetSafeLabelSpec | graph-selector/src/toMermaid.ts:34-41 | an escaped label holds none of `< > " '`, is empty exactly when the label is, holds a line feed exactly when the label does, and reads back as the label |
| ToMermaid.NodeLinesOf | graph-selector/src/toMermaid.ts:11-20 | the node loop computes `NodeLines`: one line per node with an id |
| ToMermaid.EdgeLinesOf | graph-selector/src/toMermaid.ts:22-29 | the edge loop computes `EdgeLines`: one line per edge |
| ToMermaid.ToMermaidText | graph-selector/src/toMermaid.ts:3-32 | `toMermaid` computes `MermaidOf`: `flowchart`, the node lines and the edge lines joined with line feeds |
| ToMermaid.IdCount | graph-selector/src/toMermaid.ts:13 | no more nodes with an id than nodes |
| ToMermaid.NodeLinesSpec | graph-selector/src/toMermaid.ts:11-20 | one node line per node with an id, in node order, and nothing else |
| ToMermaid.EdgeLinesSpec | graph-selector/src/toMermaid.ts:22-29 | the edge line at `k` is that of edge `k` |
| ToMermaid.MermaidLinesSpec | graph-selector/src/toMermaid.ts:5-31 | `flowchart` first, then the node lines, then one line per edge in order: 1 + (nodes with an id) + (edges) lines |
| ToMermaid.EdgeLineForms | graph-selector/src/toMermaid.ts:22-28 | an edge without a label is drawn `s --> t`, one with a label `s -- "label" --> t` |
| ToMermaid.EmptyLabelNode | graph-selector/src/toMermaid.ts:19 | a node with an empty label is drawn with a single space as its label |
| ToMermaid.MermaidSplit | graph-selector/src/toMermaid.ts:31 | when no label holds a line feed, splitting the text on line feeds gives the lines back |
| LegacyPointers.LabelRun | parser/src/parse.ts:237 | the `[\w\s]+` run: its length is within the text and it stops at the end or at a character that is neither a word nor a space character |
| LegacyPointers.WordRun | parser/src/parse.ts:237 | the `[\w]+` run: its length is within the text and it stops at the end or at a non-word character |
| LegacyPointers.IdPayload | parser/src/parse.ts:237 | the `#[\w-]+` alternative with its `)`: when it matches it ends past its start and gives an id pointer with a non-empty value |
| LegacyPointers.ClassPayload | parser/src/parse.ts:237 | the `.[\w]+` alternative with its `)`: when it matches it ends past its start and gives a class pointer with a non-empty value |
| LegacyPointers.LabelPayload | parser/src/parse.ts:237 | the `[\w\s]+` alternative with its `)`: when it matches it ends past its start and gives a label pointer with a non-empty value |
| LegacyPointers.Payload | parser/src/parse.ts:237 | the alternation tried in order: a match ends past its start and holds a non-empty pointer value |
| LegacyPointers.MatchAt | parser/src/parse.ts:237 | a match tried at one position starts there, ends within the line and holds a non-empty pointer |
| LegacyPointers.NextMatch | parser/src/parse.ts:241 | `pointerRe.exec` from `lastIndex`: a match starts at or after `lastIndex` and ends within the line |
| LegacyPointers.MatchAndRemovePointers | parser/src/parse.ts:234-259 | the exec loop computes `PointersOf`: the pointers in order and the line with each match removed and trimmed |
| LegacyPointers.ScanBounds | parser/src/parse.ts:241-257 | every pointer the loop finds has a non-empty value and the residual line never grows |
| LegacyPointers.NoParenthesis | parser/src/parse.ts:234-259 | a line without `(` yields no pointers and is returned unchanged |
| LegacyPointers.WholeLine | parser/src/parse.ts:234-259 | a line that is exactly one parenthesised pointer yields that pointer and an empty residual |
| LegacyPointers.IdPointerLine | parser/src/parse.ts:244-245 | `(#x)` yields the id pointer `x` with the `#` dropped and an empty residual |
| LegacyPointers.ClassPointerLine | parser/src/parse.ts:246-247 | `(cx)` with any first character but `#` yields the class pointer `x`: the first character is dropped whatever it is |
| LegacyPointers.LabelPointerLine | parser/src/parse.ts:248-249 | `(x)` of word and space characters that the class alternative cannot take yields the label pointer `x` verbatim |
| LegacyPointers.WordTakenAsClass | parser/src/parse.ts:237 | as written, `(ab)` yields the class pointer `b` rather than the label pointer `ab` |
| LegacyPointers.IntendedClassPayload | parser/src/parse.ts:237 | with the dot escaped, a class match needs a `.` at its start |
| LegacyPointers.IntendedClassAfterDot | parser/src/parse.ts:237 | with the dot escaped, the alternation gives a class pointer only for a payload starting with `.` |
| LegacyPointers.IntendedWordLabel | parser/src/parse.ts:237 | with the dot escaped, `(x)` for a word `x` of any length is the label pointer `x` |
| LegacyPointers.IntendedClassKept | parser/src/parse.ts:237 | `(.x)` gives the class pointer `x` both with the dot escaped and as written |
| LegacyFeatures.AttrItem | parser/src/parse.ts:85 | one `[key=value]` read at the start of a text: at least five characters, a non-empty key and a non-empty value |
| LegacyFeatures.AttributesGroup | parser/src/parse.ts:65 | the `(\[\w+=\w+\])*` group is a prefix of the text |
| LegacyFeatures.GroupsAt | parser/src/parse.ts:65 | the `replace` group read at a position (id, classes and attributes in that order) is a prefix of the text there |
| LegacyFeatures.MatchAt | parser/src/parse.ts:65 | a match at a position starts there and ends two characters (the space and the word character) after its `replace` group |
| LegacyFeatures.NextMatch | parser/src/parse.ts:71 | `re.exec` from `lastIndex`: a match starts at or after `lastIndex`, is at least two characters long, ends within the line and is the match tried at its start |
| LegacyFeatures.AfterMatch | parser/src/parse.ts:79 | removing the `replace` text and trimming never lengthens the line |
| LegacyFeatures.ExtractFeatures | parser/src/parse.ts:64-80 | the exec loop computes `ExtractOf`: the last non-empty id (without `#`), classes and attributes, and the line left after the removals |
| LegacyFeatures.PlainLine | parser/src/parse.ts:64-80 | a line with no `#`, `.` or `[` keeps its whole text and has no id, classes or attributes |
| LegacyFeatures.LeadingFeatures | parser/src/parse.ts:64-80 | `#id.c1.c2[k=v]... label` gives that id, that class string, that attribute text and the label as the line left |
| LegacyFeatures.GroupsOfRun | parser/src/parse.ts:65 | the groups read from a feature run followed by a space are the run's own id, classes and attributes |
| LegacyFeatures.ClassesBefore | parser/src/parse.ts:65 | a class string followed by a space or a bracket is read whole as the classes group |
| LegacyFeatures.MatchFirst | parser/src/parse.ts:71 | a feature run, a space and a word: the first exec matches at 0 and ends just past the space and the word's first character |
| LegacyFeatures.TrimmedTail | parser/src/parse.ts:79 | removing the feature run from `run label` and trimming leaves the label |
| LegacyFeatures.NextAttr | parser/src/parse.ts:85-87 | `attrRe.exec` from `lastIndex`: a match starts at or after it, is not empty and ends within the text |
| LegacyFeatures.ReadAttributes | parser/src/parse.ts:82-91 | the attribute loop computes `DataOf`: each matched key set to its value in the data object |
| LegacyFeatures.ReadStep | parser/src/parse.ts:87-89 | one turn of the attribute loop stops where nothing matches and otherwise sets the matched key and moves past the match |
| LegacyFeatures.ItemAt | parser/src/parse.ts:85 | a written `[key=value]` is read back as that key and value whatever follows it |
| LegacyFeatures.AttributesGroupOf | parser/src/parse.ts:65 | written attributes followed by text not opening a bracket are read whole as the attributes group |
| LegacyFeatures.ReadFromItems | parser/src/parse.ts:87-90 | reading written attributes sets each key to its value in order |
| LegacyFeatures.DataOfItems | parser/src/parse.ts:82-91 | `[k1=v1][k2=v2]...` gives the data object with each key set to its value in order, a later key overriding an earlier one |
| LegacyParse.WriteSlot | parser/src/parse.ts:45-46 | writing slot `i` and slicing to `i + 1` leaves exactly `i + 1` slots, slot `i` holding the new value and every lower slot unchanged |
| LegacyParse.FindParent | parser/src/parse.ts:207-215 | the loop's result is truthy exactly when some slot below the indent is, and is then the nearest such slot |
| LegacyParse.ColonSplits | parser/src/parse.ts:55-56 | on a line with an edge label, the first two parts of `split(":")` are the text before the first colon and the text up to the next colon |
| LegacyParse.EdgeLabelParts | parser/src/parse.ts:54-59 | a line matching `.+:.+` has as edge label the trimmed text before its first colon and goes on with the text up to the second colon; other lines keep their text and have no edge label |
| LegacyParse.ReadLine | parser/src/parse.ts:54-98 | reading a line computes `AnalyzeLine`: indent, edge label, id, classes, data, pointers and label |
| LegacyParse.PlainLineInfo | parser/src/parse.ts:54-98 | a line without `#`, `.`, `[`, `(` or `:` has its trimmed text as label and nothing else |
| LegacyParse.LabelIdsFit | parser/src/parse.ts:103-104 | the taken ids can hold no more counters than there are ids, so the counting loop ends |
| LegacyParse.FreshFrom | parser/src/parse.ts:103-104 | the counter the loop stops at is not below its start, gives an id not yet taken, and every counter before it gives a taken id |
| LegacyParse.FreshIdLeast | parser/src/parse.ts:102-107 | the generated id is not taken, and no free counter is smaller than the one used |
| LegacyParse.NextNodeId | parser/src/parse.ts:102-107 | the counting loop computes `FreshId`: the label followed by its least free counter from 1 |
| LegacyParse.Targets | parser/src/parse.ts:146-148 | one pending edge from the source to each pointer of the line, in order |
| LegacyParse.PushTargets | parser/src/parse.ts:146-148 | the loop appends exactly `Targets` to the pending edges |
| LegacyParse.PushFromPointers | parser/src/parse.ts:151-164 | the loop over the parent's pointers appends, per source pointer, an edge to the line's id when it has a node and one to each of its pointers |
| LegacyParse.Select | parser/src/parse.ts:175-180 | the nodes an end selects are exactly the nodes matching it, in order and no more of them than there are nodes |
| LegacyParse.Row | parser/src/parse.ts:183-192 | the inner loop makes one edge from the source to each target, in order |
| LegacyParse.PushRow | parser/src/parse.ts:183-192 | the inner loop appends exactly `Row` to the edges |
| LegacyParse.PushCross | parser/src/parse.ts:182-193 | the nested loops append exactly `Cross` of the sources and targets |
| LegacyParse.CrossLength | parser/src/parse.ts:182-193 | the nested loops make as many edges as there are source-target pairs |
| LegacyParse.CrossMembers | parser/src/parse.ts:182-193 | an edge is made exactly for each pair of a source and a target |
| LegacyParse.ResolvePendingSpec | parser/src/parse.ts:174-194 | a pending edge gives one edge per pair of selected source and selected target, none exactly when either end selects nothing |
| LegacyParse.ResolveAllShape | parser/src/parse.ts:184-190 | every resolved edge has id `s-t`, source `s`, target `t` and the final line count as its line number |
| LegacyParse.Resolve | parser/src/parse.ts:174-194 | the resolution loop appends exactly `ResolveAll` of the pending edges |
| LegacyParse.JoinLine | parser/src/parse.ts:100-170 | the rest of the line loop computes `AddLine` from the line read and its parent |
| LegacyParse.Parse | parser/src/parse.ts:14-200 | `parse` computes `ParseOf`: the nodes and edges of the lines scanned, then the pending edges resolved |
| LegacyParse.StepPointerLine | parser/src/parse.ts:41-48 | a pointer line changes only the ancestors, which become the one slot holding its pointers |
| LegacyParse.AddLineState | parser/src/parse.ts:102-120 | any other line writes its id at its indent and drops deeper slots; it adds a node exactly when its label is not empty and registers an id exactly when it has none of its own |
| LegacyParse.AddLineEdge | parser/src/parse.ts:125-143 | the line's node gets an edge from its parent exactly when the parent is an id and the line has a node; the edge id ends in `-1` and it carries the edge label |
| LegacyParse.AddLineOrphan | parser/src/parse.ts:125-166 | without a truthy parent a line adds no edge and no pending edge |
| LegacyParse.BlankLine | parser/src/parse.ts:38-48 | a whitespace-only line is no pointer line and has an empty label and no pointers |
| LegacyParse.ScanEdges | parser/src/parse.ts:129-142 | `edgeIds` is never filled, so every edge made while reading lines has an id ending in `-1` |
| LegacyParse.ScanNodes | parser/src/parse.ts:110-120 | nodes are made only for lines with a non-empty label, at most one per line, in line order |
| LegacyParse.ScanNodeIds | parser/src/parse.ts:102-107 | the registered generated ids are all different |
| LegacyParse.ScanAncestors | parser/src/parse.ts:169-170 | after a line the ancestors reach exactly to its indent, a pointer line counting as indent 0 |
| LegacyParse.ParseBlank | parser/src/parse.ts:14-200 | a text of whitespace-only lines parses to no nodes and no edges |
| LegacyParse.IndentedEdge | parser/src/parse.ts:14-200 | `a` followed by an indented `b` gives the nodes `a1`, `b1` and the edge `a1-b1-1` |
| LegacyParse.RepeatedLabel | parser/src/parse.ts:102-107 | two lines with the same label get the ids `a1` and `a2` |

## Left out

- `graph-selector/src/highlight.ts` is not modelled. It registers a language with the Monaco editor, a foreign user-interface API.
- The `examples/` and `examples-next/` applications are not part of this model. They are React pages, Cytoscape, D3 and Recharts rendering, and a web route that fetches a font.
- `types.ts`, `index.ts` and `parser/src/types.ts` only declare types and re-export. They shape the datatypes and have no behaviour of their own.
- The `strip` call of `@tone-row/strip-comments` (`parse.ts:8`, 35) is taken as the identity. The package's code is not part of this model, so the input is assumed to hold no comments.
- `Number()` conversion and number-to-text formatting are floating point. `Num` keeps the literal text instead, so `stringify` and `dataToString` write a number back as it was read, where JavaScript writes `1.50` as `1.5`.
- JavaScript puts integer-like object keys before the others. The model keeps plain insertion order, and it gives `__proto__` no special meaning.
- Strings are sequences of Unicode scalar values. JavaScript counts UTF-16 code units, so column numbers differ on lines with characters outside the Basic Multilingual Plane.
- AddClassesToEdge.AddClassesToEdge: the global `featuresRe` keeps a `lastIndex` between `exec` calls (`addClassesToEdge.ts:36-37`). The model starts each `exec` at 0.
- FeatureData.GetFeatureData: the loop at `getFeatureData.ts:14` calls `exec` on the same global `featuresRe`. The model starts every `exec` at 0, on the trimmed rest of the line.
- Stringify.StringifyData: the throw for a value that is not a string, number or boolean (`stringify.ts:92`) cannot happen with the three-case `Descriptor`, so it is not modelled.
- `addClassToNode.ts:54-77` has its own copy of `dataToString`. It is the same loop as `operate/dataToString.ts:9-32`, and `DataToString.DataToStringOf` models both.
- A class name passed to the `removeClass*` operations is taken as plain text. JavaScript would read regular-expression metacharacters in it as pattern syntax.
- Test expectations that the code does not implement are not stated as contracts:
  - generated ids such as `a1` in `parse.test.ts`, where the code generates `n` followed by the line number;
  - lines with two pointers expected to succeed, where `parse.ts:137-146` throws;
  - compact mode in `stringify.test.ts`, where `stringify.ts:6` takes only the graph;
  - Mermaid shapes and subgraphs;
  - the `operate.test.ts` cases;
  - the exact-class-matching cases of `removeClassesFromNode.test.ts` and `removeClassesFromEdge.test.ts`.

## Findings

Each operation below keeps the behaviour as written. The corrected definition sits beside it with the intended property proved.

| source | as written | input that shows it | evidently intended | confidence | as-written member | corrected member |
|---|---|---|---|---|---|---|
| graph-selector/src/operate/addClassesToNode.ts:45 | `classes.includes(className)` tests the class string as text, so a class whose name is part of another class name is skipped (`addClassesToEdge.ts:56` does the same) | `foo` requested on a node with classes `.foobar` adds nothing, and `foo` is then not a class of the node | add every requested class that is not already one of the node's classes | not executed | AddClassesToNode.SubstringSkipsClass | AddClassesToNode.IntendedClassesPresent |
| graph-selector/src/operate/removeClassFromNode.ts:18 | in ``new RegExp(`\.${className}`)`` the template literal turns `\.` into `.`, so the pattern is any character followed by the name (`removeClassesFromNode.ts:27` and `removeClassesFromEdge.ts:34` do the same) | removing `rectangle` from `.roundrectangle` leaves `.roun` | remove the class `rectangle` only where it is a whole class, leaving `.roundrectangle` as it is | not executed | ClassPattern.PartialClassRemoved | ClassPattern.PartialClassKept |
| parser/src/parse.ts:237 | the class alternative `.[\w]+` has an unescaped dot, so any first character starts a class pointer | `(ab)` is read as the class pointer `b` instead of the label pointer `ab` | `\.[\w]+`, as in `graph-selector/src/matchAndRemovePointers.ts:6`, so that a one-word label is a label pointer | not executed | LegacyPointers.WordTakenAsClass | LegacyPointers.IntendedWordLabel |
