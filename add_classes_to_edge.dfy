/**
 * `addClassesToEdge`: classes added to the edge part of a line, the text
 * before the first edge break (`label: `). A feature run at the start of the
 * edge part is rebuilt with the new classes; otherwise `.a.b…` is put in
 * front of the edge text. A line with no edge part gets one: the classes
 * followed by `: `. The rest of the line is kept.
 */
module AddClassesToEdge {
  import opened JsString
  import opened Types
  import opened RegExps
  import FD = FeatureData
  import DS = DataToString
  import FT = FeatureText
  import S = Stringify
  import ACN = AddClassesToNode
  import opened LineParts

  /**
   * The feature run at the start of the edge part (the match of the feature
   * pattern when the feature index is 0) and the edge text after it.
   */
  function EdgeFeatures(edge: string): (r: (string, string))
    ensures r.0 + r.1 == edge
    ensures r.0 != "" ==> GetFeaturesIndex(edge) == 0 && r.0 == FD.FeatureRunAt(edge).Replace()
  {
    if GetFeaturesIndex(edge) == 0 then
      var features := FD.FeatureRunAt(edge).Replace();
      assert edge[..|features|] + edge[|features|..] == edge;
      (features, edge[|features|..])
    else ("", edge)
  }

  /** `completeEdge`: the new classes, then the trimmed edge text. */
  function CompleteEdge(edgeText: string, classNames: seq<string>): string {
    Trim(S.JoinPresent("." + Join(classNames, "."), Trim(edgeText), " "))
  }

  /** `edgeWithFeatures`: the rebuilt run, then the trimmed edge text. */
  function EdgeWithFeatures(f: FD.Features, edgeText: string, classNames: seq<string>): string {
    Trim(S.JoinPresent(Trim(ACN.NewFeatureString(f, classNames)), Trim(edgeText), " "))
  }

  /** The edge part of the result. */
  function NewEdge(edge: string, classNames: seq<string>): string {
    var (features, edgeText) := EdgeFeatures(edge);
    if features == "" then CompleteEdge(edgeText, classNames)
    else EdgeWithFeatures(FD.FeatureDataOf(features), edgeText, classNames)
  }

  /** `divider`: a line without an edge part gets `: ` after its new one. */
  function Divider(edge: string): string {
    if edge == "" then ": " else ""
  }

  /** The parts of a line put back together around a new edge part. */
  function WithEdge(p: Parts, newEdge: string): string {
    p.indent + newEdge + Divider(p.edge) + Rest(p) + p.container
  }

  /** The line `addClassesToEdge` returns. */
  function AddClassesToEdgeOf(line: string, classNames: seq<string>): string {
    var p := NodeParts(line);
    WithEdge(p, NewEdge(p.edge, classNames))
  }

  /** `addClassesToEdge`. */
  method AddClassesToEdge(input: string, classNames: seq<string>) returns (r: string)
    ensures r == AddClassesToEdgeOf(input, classNames)
  {
    var indent, edge, line, containerStart := SplitEdgeLine(input);
    ghost var p := NodeParts(input);
    EdgeLineOfNodeParts(input);
    var noEdge := edge == "";
    var features;
    features, edge := SplitEdgeFeatures(edge);
    var divider := if noEdge then ": " else "";
    assert divider == Divider(p.edge);
    var newEdge;
    if features == "" {
      newEdge := Trim(S.JoinPresent("." + Join(classNames, "."), Trim(edge), " "));
    } else {
      var f := FD.GetFeatureData(features);
      var newFeatureString := ACN.BuildFeatureString(f, classNames);
      newEdge := Trim(S.JoinPresent(Trim(newFeatureString), Trim(edge), " "));
    }
    assert newEdge == NewEdge(p.edge, classNames);
    r := indent + newEdge + divider + line + containerStart;
  }

  /** `startOfFeatures` and the statements that cut the feature run off the edge part. */
  method SplitEdgeFeatures(input: string) returns (features: string, edge: string)
    ensures (features, edge) == EdgeFeatures(input)
  {
    edge := input;
    var startOfFeatures := GetFeaturesIndex(edge);
    features := "";
    if startOfFeatures == 0 {
      features := FD.FeatureRunAt(edge).Replace();
      edge := edge[|features|..];
    }
  }

  // ---------------------------------------------------------------------------
  // Properties

  /**
   * Whatever the new edge part, the indent and everything from the edge
   * break on are kept; the new edge part is followed by `: ` when the line
   * had none. `AddClassesToEdgeOf` is `WithEdge` with the classes' edge part.
   */
  lemma WithEdgeFrame(line: string, p: Parts, x: string)
    requires p == NodeParts(line)
    ensures |p.indent| + |p.edge| <= |line|
    ensures WithEdge(p, x) == line[..|p.indent|] + x + Divider(p.edge) + line[|p.indent| + |p.edge|..]
  {
    RestParts(line);
    Reframe(line, p.indent, p.edge, Rest(p), p.container, x, Divider(p.edge));
  }

  /** The edge part of a line swapped for other text, with the rest kept. */
  lemma Reframe(line: string, indent: string, edge: string, rest: string, container: string, x: string, d: string)
    requires line == indent + edge + rest + container
    ensures |indent| + |edge| <= |line|
    ensures indent + x + d + rest + container == line[..|indent|] + x + d + line[|indent| + |edge|..]
  {
    assert line == indent + edge + (rest + container);
    assert line[..|indent|] == indent;
    assert line[|indent| + |edge|..] == rest + container;
  }

  /** A dot, the class names joined with dots: no space at either end. */
  lemma DottedTrimmed(classNames: seq<string>)
    requires |classNames| > 0 && forall k :: 0 <= k < |classNames| ==> FT.ClassName(classNames[k])
    ensures Trim("." + Join(classNames, ".")) == "." + Join(classNames, ".")
  {
    var last := classNames[|classNames| - 1];
    assert FT.ClassName(last);
    DotJoinTrimmed(classNames, last[|last| - 1]);
  }

  lemma DotJoinTrimmed(parts: seq<string>, c: char)
    requires |parts| > 0 && |parts[|parts| - 1]| > 0 && c == parts[|parts| - 1][|parts[|parts| - 1]| - 1]
    requires FD.IsIdChar(c)
    ensures Trim("." + Join(parts, ".")) == "." + Join(parts, ".")
  {
    JoinEndsWithLast(parts, ".");
    var j := Join(parts, ".");
    var last := parts[|parts| - 1];
    assert j[|j| - 1] == last[|last| - 1];
    IdCharNotSpace(c);
    var t := "." + j;
    assert t[0] == '.' && t[|t| - 1] == c;
    TrimFixed(t);
  }

  lemma IdCharNotSpace(c: char)
    requires FD.IsIdChar(c)
    ensures !IsSpace(c)
  {
  }

  /** A join ends with its last part. */
  lemma {:induction false} JoinEndsWithLast(parts: seq<string>, sep: string)
    requires |parts| > 0
    ensures EndsWith(Join(parts, sep), parts[|parts| - 1])
    decreases |parts|
  {
    if |parts| > 1 {
      JoinEndsWithLast(parts[1..], sep);
      var t := Join(parts[1..], sep);
      assert Join(parts, sep) == parts[0] + sep + t;
      assert parts[1..][|parts[1..]| - 1] == parts[|parts| - 1];
      var j := Join(parts, sep);
      var last := parts[|parts| - 1];
      assert j[|j| - |last|..] == t[|t| - |last|..];
    }
  }

  /** Two trimmed, non-empty texts joined with one space need no trimming. */
  lemma JoinedTrimmed(a: string, b: string)
    requires a != "" && b != "" && Trim(a) == a && Trim(b) == b
    ensures Trim(a + " " + b) == a + " " + b
  {
    TrimIsCore(a);
    TrimIsCore(b);
    TrimFixed(a + " " + b);
  }

  /** A line with no edge part gets the classes as its edge part, then `: `, then the line itself. */
  lemma AddClassesNoEdge(line: string, classNames: seq<string>)
    requires NodeParts(line).edge == ""
    requires |classNames| > 0 && forall k :: 0 <= k < |classNames| ==> FT.ClassName(classNames[k])
    ensures var p := NodeParts(line);
            AddClassesToEdgeOf(line, classNames) == p.indent + "." + Join(classNames, ".") + ": " + line[|p.indent|..]
  {
    var p := NodeParts(line);
    WithEdgeFrame(line, p, NewEdge(p.edge, classNames));
    NoEdgeText(classNames);
    RestParts(line);
    assert line[..|p.indent|] == p.indent;
    Regroup(AddClassesToEdgeOf(line, classNames), line[..|p.indent|], p.indent, NewEdge(p.edge, classNames),
            Join(classNames, "."), Divider(p.edge), line[|p.indent| + |p.edge|..]);
  }

  lemma Regroup(r: string, a: string, indent: string, x: string, j: string, d: string, tail: string)
    requires r == a + x + d + tail && a == indent && x == "." + j && d == ": "
    ensures r == indent + "." + j + ": " + tail
  {
  }

  /** The new edge part of a line without one: the dotted classes. */
  lemma NoEdgeText(classNames: seq<string>)
    requires |classNames| > 0 && forall k :: 0 <= k < |classNames| ==> FT.ClassName(classNames[k])
    ensures NewEdge("", classNames) == "." + Join(classNames, ".")
  {
    EmptyEdgeFeatures();
    DottedTrimmed(classNames);
    assert Trim("") == "";
    assert CompleteEdge("", classNames) == Trim("." + Join(classNames, "."));
  }

  lemma EmptyEdgeFeatures()
    ensures EdgeFeatures("") == ("", "")
  {
    assert FD.FeatureRunAt("").Replace() == "";
  }

  /** Without a feature run, the classes come first and the edge text after one space. */
  lemma AddClassesBeforeEdgeText(edge: string, classNames: seq<string>)
    requires EdgeFeatures(edge).0 == ""
    requires |classNames| > 0 && forall k :: 0 <= k < |classNames| ==> FT.ClassName(classNames[k])
    ensures Trim(edge) == "" ==> NewEdge(edge, classNames) == "." + Join(classNames, ".")
    ensures Trim(edge) != "" ==> NewEdge(edge, classNames) == "." + Join(classNames, ".") + " " + Trim(edge)
  {
    DottedTrimmed(classNames);
    if Trim(edge) != "" {
      TrimTrim(edge);
      JoinedTrimmed("." + Join(classNames, "."), Trim(edge));
    }
  }

  /**
   * With a feature run, the rebuilt run comes first and the edge text after
   * one space; the outer trim changes nothing.
   */
  lemma EdgeWithFeaturesShape(f: FD.Features, edgeText: string, classNames: seq<string>)
    ensures var run := Trim(ACN.NewFeatureString(f, classNames));
            var e := EdgeWithFeatures(f, edgeText, classNames);
            (Trim(edgeText) == "" ==> e == run)
            && (run == "" ==> e == Trim(edgeText))
            && (run != "" && Trim(edgeText) != "" ==> e == run + " " + Trim(edgeText))
  {
    var run := Trim(ACN.NewFeatureString(f, classNames));
    TrimTrim(ACN.NewFeatureString(f, classNames));
    TrimTrim(edgeText);
    if run != "" && Trim(edgeText) != "" {
      JoinedTrimmed(run, Trim(edgeText));
    }
  }

  /**
   * The rebuilt run reads back as the old run with the new classes after
   * its classes, the same id and the same data.
   */
  lemma AddClassesToEdgeReadBack(edge: string, classNames: seq<string>)
    requires EdgeFeatures(edge).0 != ""
    requires forall k :: 0 <= k < |classNames| ==> FT.ClassName(classNames[k])
    requires DS.Writable(FD.FeatureDataOf(EdgeFeatures(edge).0).data)
    ensures var f := FD.FeatureDataOf(EdgeFeatures(edge).0);
            FD.FeatureDataOf(Trim(ACN.NewFeatureString(f, classNames)))
              == FD.Features(f.id, f.classes + ACN.ClassNameString(f.classes, classNames), f.data, "")
  {
    RunReadBack(EdgeFeatures(edge).0, classNames);
  }

  lemma RunReadBack(features: string, classNames: seq<string>)
    requires forall k :: 0 <= k < |classNames| ==> FT.ClassName(classNames[k])
    requires DS.Writable(FD.FeatureDataOf(features).data)
    ensures var f := FD.FeatureDataOf(features);
            FD.FeatureDataOf(Trim(ACN.NewFeatureString(f, classNames)))
              == FD.Features(f.id, f.classes + ACN.ClassNameString(f.classes, classNames), f.data, "")
  {
    var f := FD.FeatureDataOf(features);
    FT.FeaturesValid(features);
    ACN.NewRunReadBack(f, classNames);
    FT.TrimmedRead(ACN.NewFeatureString(f, classNames));
  }
}
