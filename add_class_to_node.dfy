/**
 * `addClassToNode`: one class appended to the feature run of a node line.
 * The indent, edge part, label and container opening are kept; the feature
 * run is written again from what `getFeatureData` reads in it, with
 * `.className` after the existing classes. Without a feature run,
 * ` .className` is put where the run would be.
 */
module AddClassToNode {
  import opened JsString
  import opened Types
  import FD = FeatureData
  import DS = DataToString
  import FT = FeatureText
  import opened LineParts

  /** `newFeatureString`: a space, then the id, the classes with the new one, and the data. */
  function NewFeatureString(f: FD.Features, className: string): string {
    " " + FT.FeatureTextOf(f.id, f.classes + "." + className, f.data)
  }

  /** The text that takes the place of the feature run `features`. */
  function AddedRun(features: string, className: string): string {
    if features == "" then " ." + className
    else NewFeatureString(FD.FeatureDataOf(features), className)
  }

  /** The line `addClassToNode` returns. */
  function AddClassToNodeOf(line: string, className: string): string {
    var p := NodeParts(line);
    Head(p) + AddedRun(p.features, className) + p.container
  }

  /** `addClassToNode`. */
  method AddClassToNode(line: string, className: string) returns (r: string)
    ensures r == AddClassToNodeOf(line, className)
  {
    var p := SplitNodeLine(line);
    if p.features == "" {
      ConcatAssoc(Head(p), " .", className);
      return p.indent + p.edge + p.labelText + " ." + className + p.container;
    }
    var f := FD.GetFeatureData(p.features);
    var newFeatureString := BuildFeatureString(f, className);
    r := p.indent + p.edge + p.labelText + newFeatureString + p.container;
  }

  /** The statements building `newFeatureString`. */
  method BuildFeatureString(f: FD.Features, className: string) returns (newFeatureString: string)
    ensures newFeatureString == NewFeatureString(f, className)
  {
    var idText := FT.IdText(f.id);
    newFeatureString := " ";
    if f.id != "" {
      newFeatureString := newFeatureString + "#" + f.id;
    }
    assert newFeatureString == " " + idText;
    if f.classes != "" {
      newFeatureString := newFeatureString + f.classes;
    }
    assert newFeatureString == " " + idText + f.classes;
    newFeatureString := newFeatureString + "." + className;
    ConcatAssoc(" " + idText + f.classes, ".", className);
    ConcatAssoc(" " + idText, f.classes, "." + className);
    var head := newFeatureString;
    assert head == " " + idText + (f.classes + "." + className);
    var dataString := "";
    if |f.data| > 0 {
      dataString := DS.DataToStringOf(f.data);
      newFeatureString := newFeatureString + dataString;
    }
    DS.EmptyDataString(f.data);
    assert newFeatureString == head + DS.DataString(f.data);
    ConcatAssoc(" ", idText, f.classes + "." + className);
    ConcatAssoc(" ", idText + (f.classes + "." + className), DS.DataString(f.data));
  }

  // ---------------------------------------------------------------------------
  // Properties

  /**
   * Only the feature run changes: the result starts with the line up to the
   * run and ends with the container opening the line ends with.
   */
  lemma AddClassFrame(line: string, className: string)
    ensures var p := NodeParts(line);
            AddClassToNodeOf(line, className)
              == line[..|Head(p)|] + AddedRun(p.features, className) + line[|line| - |p.container|..]
  {
    NodePartsFrame(line);
  }

  /** Without a feature run, ` .className` goes right before the container opening. */
  lemma AddClassNoFeatures(line: string, className: string)
    requires NodeParts(line).features == ""
    ensures var c := NodeParts(line).container;
            AddClassToNodeOf(line, className) == line[..|line| - |c|] + " ." + className + c
  {
    var p := NodeParts(line);
    AddClassFrame(line, className);
    NodePartsFrame(line);
    NoFeaturesGlue(AddClassToNodeOf(line, className), line, |Head(p)|, " ." + className, p.container);
  }

  lemma NoFeaturesGlue(r: string, line: string, h: nat, run: string, c: string)
    requires h + |c| == |line| && line[h..] == c
    requires r == line[..h] + run + line[h..]
    ensures r == line[..|line| - |c|] + run + c
  {
  }

  /** With no feature run, the added run is the one rebuilt from empty features. */
  lemma ClassRunIsNewRun(className: string)
    ensures " ." + className == NewFeatureString(FD.Features("", "", [], ""), className)
  {
    DS.DataStringAppend([], "", Bool(true));
    assert FT.FeatureTextOf("", "" + "." + className, []) == "." + className;
  }

  /** A rebuilt run reads as the id, the classes with the new one, and the data it was built from. */
  lemma NewRunReadBack(f: FD.Features, className: string)
    requires FT.ValidId(f.id) && FT.ValidClasses(f.classes) && FT.ClassName(className) && DS.Writable(f.data)
    ensures FD.FeatureDataOf(NewFeatureString(f, className)) == FD.Features(f.id, f.classes + "." + className, f.data, "")
  {
    FT.AddClass(f.classes, className);
    FT.LeadingSpaceIgnored(FT.FeatureTextOf(f.id, f.classes + "." + className, f.data));
    FT.FeatureTextRoundTrip(f.id, f.classes + "." + className, f.data);
  }

  /**
   * The new run reads back as the old one with `.className` after its
   * classes: same id, same data, and the text after the run dropped.
   */
  lemma AddClassReadBack(features: string, className: string)
    requires FT.ClassName(className)
    requires DS.Writable(FD.FeatureDataOf(features).data)
    ensures var f := FD.FeatureDataOf(features);
            FD.FeatureDataOf(AddedRun(features, className)) == FD.Features(f.id, f.classes + "." + className, f.data, "")
  {
    if features == "" {
      FD.PlainText(features);
      ClassRunIsNewRun(className);
      assert FT.ValidClasses("") && FT.ValidId("") && DS.Writable([]);
      NewRunReadBack(FD.Features("", "", [], ""), className);
    } else {
      FT.FeaturesValid(features);
      NewRunReadBack(FD.FeatureDataOf(features), className);
    }
  }
}
