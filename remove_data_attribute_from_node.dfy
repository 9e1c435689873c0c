/**
 * `removeDataAttributeFromNode`: one data attribute deleted from a node
 * line. A line without a feature run comes back as it was; otherwise the
 * run is written again from what `getFeatureData` reads in it, without the
 * attribute, after the label and one space, and the line after the indent
 * is trimmed.
 */
module RemoveDataAttributeFromNode {
  import opened JsString
  import opened Types
  import FD = FeatureData
  import DS = DataToString
  import FT = FeatureText
  import S = Stringify
  import opened LineParts

  /** `newFeatureString`: the id, the classes and the data without the attribute (no leading space). */
  function NewFeatureString(f: FD.Features, name: string): string
    requires DistinctKeys(f.data)
  {
    FT.FeatureTextOf(f.id, f.classes, Remove(f.data, name))
  }

  /** The line after the indent: edge part, label and new run joined by a space, container; trimmed. */
  function Rebuilt(p: Parts, newFeatureString: string): string {
    Trim(p.edge + S.JoinPresent(p.labelText, newFeatureString, " ") + p.container)
  }

  /** The run written for the feature run `features`. */
  function NewRun(features: string, name: string): string {
    FD.FeatureDataDistinct(features);
    NewFeatureString(FD.FeatureDataOf(features), name)
  }

  /** The line `removeDataAttributeFromNode` returns. */
  function RemoveDataAttributeFromNodeOf(line: string, name: string): string {
    var p := NodeParts(line);
    if p.features == "" then Head(p) + p.container
    else p.indent + Rebuilt(p, NewRun(p.features, name))
  }

  /** `removeDataAttributeFromNode`. */
  method RemoveDataAttributeFromNode(line: string, name: string) returns (r: string)
    ensures r == RemoveDataAttributeFromNodeOf(line, name)
  {
    var p := SplitNodeLine(line);
    if p.features == "" {
      return p.indent + p.edge + p.labelText + p.container;
    }
    var f := FD.GetFeatureData(p.features);
    var newFeatureString := BuildFeatureString(f, name);
    r := p.indent + Trim(p.edge + S.JoinPresent(p.labelText, newFeatureString, " ") + p.container);
  }

  /** The statements building `newFeatureString`, with `delete data[name]`. */
  method BuildFeatureString(f: FD.Features, name: string) returns (newFeatureString: string)
    requires DistinctKeys(f.data)
    ensures newFeatureString == NewFeatureString(f, name)
  {
    var idText := FT.IdText(f.id);
    newFeatureString := "";
    if f.id != "" {
      newFeatureString := newFeatureString + "#" + f.id;
    }
    assert newFeatureString == idText;
    if f.classes != "" {
      newFeatureString := newFeatureString + f.classes;
    }
    assert newFeatureString == idText + f.classes;
    var data := f.data;
    data := Remove(data, name);
    var dataString := DS.DataToStringOf(data);
    newFeatureString := newFeatureString + dataString;
  }

  // ---------------------------------------------------------------------------
  // Properties

  /** A line without a feature run is returned unchanged. */
  lemma RemoveDataNoFeatures(line: string, name: string)
    requires NodeParts(line).features == ""
    ensures RemoveDataAttributeFromNodeOf(line, name) == line
  {
    var p := NodeParts(line);
    assert line == Head(p) + "" + p.container;
  }

  /** `r` is `indent` and then a text with no whitespace at either end. */
  predicate IndentThenTrimmed(r: string, indent: string) {
    |indent| <= |r| && r[..|indent|] == indent
    && (|r| == |indent| || (!IsSpace(r[|indent|]) && !IsSpace(r[|r| - 1])))
  }

  /**
   * With a feature run, the indent is kept and what follows it is trimmed:
   * it neither starts nor ends with whitespace.
   */
  lemma RemoveDataShape(line: string, name: string)
    requires NodeParts(line).features != ""
    ensures IndentThenTrimmed(RemoveDataAttributeFromNodeOf(line, name), NodeParts(line).indent)
  {
    var p := NodeParts(line);
    var t := Rebuilt(p, NewRun(p.features, name));
    assert RemoveDataAttributeFromNodeOf(line, name) == p.indent + t;
    TrimAfter(p.indent, t, p.edge + S.JoinPresent(p.labelText, NewRun(p.features, name), " ") + p.container);
  }

  /** An indent followed by a trimmed text. */
  lemma TrimAfter(indent: string, t: string, u: string)
    requires t == Trim(u)
    ensures IndentThenTrimmed(indent + t, indent)
  {
    TrimIsCore(u);
    var r := indent + t;
    assert r[..|indent|] == indent;
    if |t| > 0 {
      assert r[|indent|] == t[0];
      assert r[|r| - 1] == t[|t| - 1];
    }
  }

  /** Deleting one attribute from writable data keeps it writable. */
  lemma RemoveWritable(d: Data, name: string)
    requires DS.Writable(d)
    ensures DS.Writable(Remove(d, name))
  {
    RemoveSpec(d, name, name);
    var r := Remove(d, name);
    forall i | 0 <= i < |r|
      ensures DS.WritableEntry(r[i].0, r[i].1)
    {
      assert r[i] in d;
      var j :| 0 <= j < |d| && d[j] == r[i];
    }
  }

  /**
   * The new run reads back as the old one without the attribute: same id,
   * same classes, the text after the run dropped.
   */
  lemma RemoveDataReadBack(features: string, name: string)
    requires DS.Writable(FD.FeatureDataOf(features).data)
    ensures var f := FD.FeatureDataOf(features);
            FD.FeatureDataOf(NewFeatureString(f, name)) == FD.Features(f.id, f.classes, Remove(f.data, name), "")
  {
    var f := FD.FeatureDataOf(features);
    FT.FeaturesValid(features);
    RemoveWritable(f.data, name);
    FT.FeatureTextRoundTrip(f.id, f.classes, Remove(f.data, name));
  }

  /** Read back, the attribute is gone and every other key keeps its value. */
  lemma RemoveDataValue(features: string, name: string, k: string)
    requires DS.Writable(FD.FeatureDataOf(features).data)
    ensures var f := FD.FeatureDataOf(features);
            Get(FD.FeatureDataOf(NewFeatureString(f, name)).data, k) == (if k == name then None else Get(f.data, k))
  {
    var f := FD.FeatureDataOf(features);
    RemoveDataReadBack(features, name);
    RemoveSpec(f.data, name, k);
  }
}
