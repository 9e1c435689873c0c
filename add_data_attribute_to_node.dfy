/**
 * `addDataAttributeToNode`: one data attribute set on a node line, added
 * or, when the key is already there, updated in place. The feature run is
 * written again from what `getFeatureData` reads in it, with the data
 * updated; without a feature run, the attribute alone is put where the run
 * would be.
 */
module AddDataAttributeToNode {
  import opened JsString
  import opened Types
  import FD = FeatureData
  import DS = DataToString
  import FT = FeatureText
  import opened LineParts

  /** `newFeatureString`: a space, the id, the classes, and the data with the attribute set. */
  function NewFeatureString(f: FD.Features, name: string, value: Descriptor): string {
    " " + FT.FeatureTextOf(f.id, f.classes, Set(f.data, name, value))
  }

  /** The text that takes the place of the feature run `features`. */
  function AddedRun(features: string, name: string, value: Descriptor): string {
    if features == "" then " " + DS.DataString([(name, value)])
    else NewFeatureString(FD.FeatureDataOf(features), name, value)
  }

  /** The line `addDataAttributeToNode` returns. */
  function AddDataAttributeToNodeOf(line: string, name: string, value: Descriptor): string {
    var p := NodeParts(line);
    Head(p) + AddedRun(p.features, name, value) + p.container
  }

  /** `addDataAttributeToNode`. */
  method AddDataAttributeToNode(line: string, name: string, value: Descriptor) returns (r: string)
    ensures r == AddDataAttributeToNodeOf(line, name, value)
  {
    var p := SplitNodeLine(line);
    var dataStr := DS.DataToStringOf([(name, value)]);
    if p.features == "" {
      ConcatAssoc(Head(p), " ", dataStr);
      return p.indent + p.edge + p.labelText + " " + dataStr + p.container;
    }
    var f := FD.GetFeatureData(p.features);
    var newFeatureString := BuildFeatureString(f, name, value);
    r := p.indent + p.edge + p.labelText + newFeatureString + p.container;
  }

  /** The statements building `newFeatureString`. */
  method BuildFeatureString(f: FD.Features, name: string, value: Descriptor) returns (newFeatureString: string)
    ensures newFeatureString == NewFeatureString(f, name, value)
  {
    var idText := FT.IdText(f.id);
    newFeatureString := " ";
    if f.id != "" {
      newFeatureString := newFeatureString + "#" + f.id;
    }
    assert newFeatureString == " " + idText;
    if f.classes != "" {
      newFeatureString := newFeatureString + f.classes;
    }
    assert newFeatureString == " " + idText + f.classes;
    var dataString := DS.DataToStringOf(Set(f.data, name, value));
    newFeatureString := newFeatureString + dataString;
    ConcatAssoc(" ", idText, f.classes);
    ConcatAssoc(" ", idText + f.classes, dataString);
  }

  // ---------------------------------------------------------------------------
  // Properties

  /** Only the feature run changes. */
  lemma AddDataFrame(line: string, name: string, value: Descriptor)
    ensures var p := NodeParts(line);
            AddDataAttributeToNodeOf(line, name, value)
              == line[..|Head(p)|] + AddedRun(p.features, name, value) + line[|line| - |p.container|..]
  {
    NodePartsFrame(line);
  }

  /** Setting one attribute that reads back as itself keeps data writable. */
  lemma SetWritable(d: Data, name: string, value: Descriptor)
    requires DS.Writable(d) && DS.WritableEntry(name, value)
    ensures DS.Writable(Set(d, name, value))
  {
    SetDistinct(d, name, value);
    KeyIndexFirst(d, name);
  }

  /** With no feature run, the added run is the one rebuilt from empty features. */
  lemma EmptyRunIsNewRun(name: string, value: Descriptor)
    ensures " " + DS.DataString([(name, value)]) == NewFeatureString(FD.Features("", "", [], ""), name, value)
  {
    assert Set([], name, value) == [(name, value)];
    var t := DS.DataString([(name, value)]);
    assert FT.FeatureTextOf("", "", [(name, value)]) == "" + "" + t;
  }

  /** A rebuilt run reads as the id, the classes and the updated data it was built from. */
  lemma NewRunReadBack(f: FD.Features, name: string, value: Descriptor)
    requires FT.ValidId(f.id) && FT.ValidClasses(f.classes)
    requires DS.Writable(f.data) && DS.WritableEntry(name, value)
    ensures FD.FeatureDataOf(NewFeatureString(f, name, value)) == FD.Features(f.id, f.classes, Set(f.data, name, value), "")
  {
    SetWritable(f.data, name, value);
    FT.LeadingSpaceIgnored(FT.FeatureTextOf(f.id, f.classes, Set(f.data, name, value)));
    FT.FeatureTextRoundTrip(f.id, f.classes, Set(f.data, name, value));
  }

  /**
   * The new run reads back as the old one with the attribute set: same id,
   * same classes, the text after the run dropped.
   */
  lemma AddDataReadBack(features: string, name: string, value: Descriptor)
    requires DS.Writable(FD.FeatureDataOf(features).data) && DS.WritableEntry(name, value)
    ensures var f := FD.FeatureDataOf(features);
            FD.FeatureDataOf(AddedRun(features, name, value)) == FD.Features(f.id, f.classes, Set(f.data, name, value), "")
  {
    if features == "" {
      FD.PlainText(features);
      EmptyRunIsNewRun(name, value);
      assert FT.ValidClasses("") && FT.ValidId("") && DS.Writable([]);
      NewRunReadBack(FD.Features("", "", [], ""), name, value);
    } else {
      FT.FeaturesValid(features);
      NewRunReadBack(FD.FeatureDataOf(features), name, value);
    }
  }

  /**
   * Read back, the attribute has the new value and every other key keeps
   * its old value; an existing key keeps its place among the keys, a new
   * one comes last.
   */
  lemma AddDataValue(features: string, name: string, value: Descriptor, k: string)
    requires DS.Writable(FD.FeatureDataOf(features).data) && DS.WritableEntry(name, value)
    ensures var f := FD.FeatureDataOf(features);
            var d := FD.FeatureDataOf(AddedRun(features, name, value)).data;
            Get(d, k) == (if k == name then Some(value) else Get(f.data, k))
            && (HasKey(f.data, name) ==> Keys(d) == Keys(f.data))
            && (!HasKey(f.data, name) ==> d == f.data + [(name, value)])
  {
    var f := FD.FeatureDataOf(features);
    AddDataReadBack(features, name, value);
    if k != name {
      GetSet(f.data, name, value, k);
    }
    SetKeys(f.data, name, value);
  }
}
