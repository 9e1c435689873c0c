/**
 * The way every line-patch operation takes a line apart before it edits it:
 * the leading indent, a trailing ` {` that opens a container, the edge part
 * before the first edge break, and the feature run of what is left. Each
 * step cuts the text in two, so the pieces put back together give the line.
 */
module LineParts {
  import opened JsString
  import opened RegExps

  /** The indent: the leading whitespace of the line, matched by `^\s*` (empty when there is none). */
  function IndentOf(line: string): (r: string)
    ensures r + TrimStart(line) == line
    ensures AllSpace(r)
    ensures TrimStart(line) == "" || !IsSpace(TrimStart(line)[0])
  {
    var n := LeadingSpaces(line);
    assert line[..n] + line[n..] == line;
    line[..n]
  }

  /** `if (line.endsWith(" {")) { containerStart = " {"; line = line.slice(0, -2) }`. */
  function SplitContainer(s: string): (r: (string, string))
    ensures r.0 + r.1 == s
    ensures r.1 == (if EndsWith(s, " {") then " {" else "")
  {
    if EndsWith(s, " {") then
      assert s[..|s| - 2] + s[|s| - 2..] == s;
      (s[..|s| - 2], " {")
    else (s, "")
  }

  /**
   * `edge = line.slice(0, edgeBreakIndex + 1); line = line.slice(edgeBreakIndex + 1)`
   * when there is an edge break: the edge part ends with the character before
   * the colon, and the rest starts with the colon and a space.
   */
  function SplitEdge(s: string): (r: (string, string))
    ensures r.0 + r.1 == s
    ensures r.0 == "" <==> GetEdgeBreakIndex(s) == -1
    ensures r.0 != "" ==> |r.1| >= 2 && IsColon(r.1[0]) && r.1[1] == ' ' && r.0[|r.0| - 1] != '\\'
  {
    var i := GetEdgeBreakIndex(s);
    if i != -1 then
      assert s[..i + 1] + s[i + 1..] == s;
      (s[..i + 1], s[i + 1..])
    else ("", s)
  }

  /**
   * `features = line.slice(featuresIndex); line = line.slice(0, featuresIndex)`:
   * the feature run starts at the first match of the feature pattern, and
   * there is none when the pattern does not match.
   */
  function SplitFeatures(s: string): (r: (string, string))
    ensures r.0 + r.1 == s
    ensures r.1 == "" || FeaturesStartAt(s, |r.0|)
    ensures forall p :: 0 <= p < |r.0| ==> !FeaturesStartAt(s, p)
  {
    var i := GetFeaturesIndex(s);
    assert s[..i] + s[i..] == s;
    (s[..i], s[i..])
  }

  /** The pieces of a node line. */
  datatype Parts = Parts(indent: string, edge: string, labelText: string, features: string, container: string)

  /** A node line taken apart: indent, then container, then edge, then features. */
  function NodeParts(line: string): (p: Parts)
    ensures p.indent + p.edge + p.labelText + p.features + p.container == line
  {
    var indent := IndentOf(line);
    var c := SplitContainer(TrimStart(line));
    var e := SplitEdge(c.0);
    var f := SplitFeatures(e.1);
    Regroup(indent, e.0, f.0, f.1, c.1, e.1, c.0, TrimStart(line), line);
    Parts(indent, e.0, f.0, f.1, c.1)
  }

  /** Five pieces cut off one after the other put back together. */
  lemma Regroup(i: string, e: string, l: string, f: string, c: string, rest: string, body: string, trimmed: string, line: string)
    requires l + f == rest && e + rest == body && body + c == trimmed && i + trimmed == line
    ensures i + e + l + f + c == line
  {
  }

  /** The text before the feature run: indent, edge part and label. */
  function Head(p: Parts): string {
    p.indent + p.edge + p.labelText
  }

  /** The shared opening of the node operations: the reassignments of `line`, `edge` and `features`. */
  method SplitNodeLine(input: string) returns (p: Parts)
    ensures p == NodeParts(input)
  {
    var indent := IndentOf(input);
    var line := TrimStart(input);
    var containerStart := "";
    if EndsWith(line, " {") {
      containerStart := " {";
      line := line[..|line| - 2];
    }
    var edge := "";
    var edgeBreakIndex := GetEdgeBreakIndex(line);
    if edgeBreakIndex != -1 {
      edge := line[..edgeBreakIndex + 1];
      line := line[edgeBreakIndex + 1..];
    }
    var featuresIndex := GetFeaturesIndex(line);
    var features := line[featuresIndex..];
    line := line[..featuresIndex];
    p := Parts(indent, edge, line, features, containerStart);
  }

  /** The text after the edge part, label and feature run together. */
  function Rest(p: Parts): string {
    p.labelText + p.features
  }

  /** An edge line taken apart: indent, container, then edge part and the rest. */
  function EdgeLine(line: string): (r: (string, string, string, string))
    ensures r.0 + r.1 + r.2 + r.3 == line
  {
    var indent := IndentOf(line);
    var c := SplitContainer(TrimStart(line));
    var e := SplitEdge(c.0);
    Regroup(indent, e.0, e.1, "", c.1, e.1, c.0, TrimStart(line), line);
    (indent, e.0, e.1, c.1)
  }

  /** The opening of the edge operations: the same reassignments, without the feature split. */
  method SplitEdgeLine(input: string) returns (indent: string, edge: string, line: string, containerStart: string)
    ensures (indent, edge, line, containerStart) == EdgeLine(input)
  {
    indent := IndentOf(input);
    line := TrimStart(input);
    containerStart := "";
    if EndsWith(line, " {") {
      containerStart := " {";
      line := line[..|line| - 2];
    }
    edge := "";
    var edgeBreakIndex := GetEdgeBreakIndex(line);
    if edgeBreakIndex != -1 {
      edge := line[..edgeBreakIndex + 1];
      line := line[edgeBreakIndex + 1..];
    }
  }

  /** The opening of the class-removal operations on nodes: indent and edge part, no container split. */
  function EdgeCut(line: string): (r: (string, string, string))
    ensures r.0 + r.1 + r.2 == line
  {
    var indent := IndentOf(line);
    var e := SplitEdge(TrimStart(line));
    ConcatAssoc(indent, e.0, e.1);
    (indent, e.0, e.1)
  }

  /** The statements of that opening. */
  method SplitEdgeCut(input: string) returns (indent: string, edge: string, line: string)
    ensures (indent, edge, line) == EdgeCut(input)
  {
    indent := IndentOf(input);
    line := TrimStart(input);
    edge := "";
    var edgeBreakIndex := GetEdgeBreakIndex(line);
    if edgeBreakIndex != -1 {
      edge := line[..edgeBreakIndex + 1];
      line := line[edgeBreakIndex + 1..];
    }
  }

  // ---------------------------------------------------------------------------
  // Properties

  /**
   * The head and the container of a node line are a prefix and a suffix of
   * the line, with the feature run between them.
   */
  lemma NodePartsFrame(line: string)
    ensures var p := NodeParts(line);
            |Head(p)| + |p.features| + |p.container| == |line|
            && line[..|Head(p)|] == Head(p)
            && line[|Head(p)|..|line| - |p.container|] == p.features
            && line[|line| - |p.container|..] == p.container
  {
    var p := NodeParts(line);
    Frame(Head(p), p.features, p.container, line);
  }

  lemma Frame(h: string, f: string, c: string, line: string)
    requires h + f + c == line
    ensures |h| + |f| + |c| == |line|
    ensures line[..|h|] == h && line[|h|..|line| - |c|] == f && line[|line| - |c|..] == c
  {
    assert (h + f + c)[..|h|] == h;
    assert (h + f + c)[|h|..|line| - |c|] == f;
    assert (h + f + c)[|line| - |c|..] == c;
  }

  /** Without the feature split, a node line falls apart into the same pieces. */
  lemma EdgeLineOfNodeParts(line: string)
    ensures var p := NodeParts(line);
            EdgeLine(line) == (p.indent, p.edge, Rest(p), p.container)
  {
  }

  /** A line is its indent, edge part, rest and container opening. */
  lemma RestParts(line: string)
    ensures var p := NodeParts(line);
            line == p.indent + p.edge + Rest(p) + p.container
  {
    var p := NodeParts(line);
    ConcatAssoc(p.indent + p.edge, p.labelText, p.features);
  }

  /** The label holds no start of a feature run, so the run found is the first. */
  lemma LabelHasNoFeatures(line: string)
    ensures var p := NodeParts(line);
            p.features == "" || IsFeatureMark(p.features[0]) || (IsSpace(p.features[0]) && |p.features| > 1 && IsFeatureMark(p.features[1]))
  {
    var p := NodeParts(line);
    var (body, container) := SplitContainer(TrimStart(line));
    var (edge, rest) := SplitEdge(body);
    if p.features != "" {
      assert rest == p.labelText + p.features;
      assert rest[|p.labelText|] == p.features[0];
      if |p.labelText| + 1 < |rest| {
        assert rest[|p.labelText| + 1] == p.features[1];
      }
    }
  }
}
