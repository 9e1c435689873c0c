/**
 * `addClassesToNode`: several classes appended to the feature run of a node
 * line. Each requested class is written as `.className` after the existing
 * classes unless the existing class string already contains it as text;
 * without a feature run, ` .a.b…` is put where the run would be.
 */
module AddClassesToNode {
  import opened JsString
  import opened Types
  import FD = FeatureData
  import DS = DataToString
  import FT = FeatureText
  import opened LineParts

  /** One step of the loop: `.className`, or nothing when `classes.includes(className)`. */
  function NewClass(classes: string, className: string): string {
    if Contains(classes, className) then "" else "." + className
  }

  /** `classNameString` after the loop over `classNames`. */
  function ClassNameString(classes: string, classNames: seq<string>): string
    decreases |classNames|
  {
    if |classNames| == 0 then ""
    else ClassNameString(classes, classNames[..|classNames| - 1]) + NewClass(classes, classNames[|classNames| - 1])
  }

  /** `newFeatureString`: a space, the id, the classes and the new ones, and the data. */
  function NewFeatureString(f: FD.Features, classNames: seq<string>): string {
    " " + FT.FeatureTextOf(f.id, f.classes + ClassNameString(f.classes, classNames), f.data)
  }

  /** The text that takes the place of the feature run `features`. */
  function AddedRun(features: string, classNames: seq<string>): string {
    if features == "" then " ." + Join(classNames, ".")
    else NewFeatureString(FD.FeatureDataOf(features), classNames)
  }

  /** The line `addClassesToNode` returns. */
  function AddClassesToNodeOf(line: string, classNames: seq<string>): string {
    var p := NodeParts(line);
    Head(p) + AddedRun(p.features, classNames) + p.container
  }

  /** `addClassesToNode`. */
  method AddClassesToNode(line: string, classNames: seq<string>) returns (r: string)
    ensures r == AddClassesToNodeOf(line, classNames)
  {
    var p := SplitNodeLine(line);
    if p.features == "" {
      ConcatAssoc(Head(p), " .", Join(classNames, "."));
      return p.indent + p.edge + p.labelText + " ." + Join(classNames, ".") + p.container;
    }
    var f := FD.GetFeatureData(p.features);
    var newFeatureString := BuildFeatureString(f, classNames);
    r := p.indent + p.edge + p.labelText + newFeatureString + p.container;
  }

  /** The statements building `newFeatureString`. */
  method BuildFeatureString(f: FD.Features, classNames: seq<string>) returns (newFeatureString: string)
    ensures newFeatureString == NewFeatureString(f, classNames)
  {
    var idText := FT.IdText(f.id);
    newFeatureString := " ";
    if f.id != "" {
      newFeatureString := newFeatureString + "#" + f.id;
    }
    assert newFeatureString == " " + idText;
    if f.classes != "" {
      newFeatureString := newFeatureString + f.classes;
    }
    assert newFeatureString == " " + idText + f.classes;
    var classNameString := BuildClassNameString(f.classes, classNames);
    newFeatureString := newFeatureString + classNameString;
    var added := f.classes + classNameString;
    ConcatAssoc(" " + idText, f.classes, classNameString);
    var head := newFeatureString;
    assert head == " " + idText + added;
    if |f.data| > 0 {
      var dataString := DS.DataToStringOf(f.data);
      newFeatureString := newFeatureString + dataString;
    }
    DS.EmptyDataString(f.data);
    assert newFeatureString == head + DS.DataString(f.data);
    ConcatAssoc(" ", idText, added);
    ConcatAssoc(" ", idText + added, DS.DataString(f.data));
  }

  /** The loop over `classNames`. */
  method BuildClassNameString(classes: string, classNames: seq<string>) returns (classNameString: string)
    ensures classNameString == ClassNameString(classes, classNames)
  {
    classNameString := "";
    for i := 0 to |classNames|
      invariant classNameString == ClassNameString(classes, classNames[..i])
    {
      assert classNames[..i + 1][..i] == classNames[..i];
      if !Contains(classes, classNames[i]) {
        classNameString := classNameString + "." + classNames[i];
      }
    }
    assert classNames[..|classNames|] == classNames;
  }

  // ---------------------------------------------------------------------------
  // Properties

  /** Only the feature run changes. */
  lemma AddClassesFrame(line: string, classNames: seq<string>)
    ensures var p := NodeParts(line);
            AddClassesToNodeOf(line, classNames)
              == line[..|Head(p)|] + AddedRun(p.features, classNames) + line[|line| - |p.container|..]
  {
    NodePartsFrame(line);
  }

  /** Requested classes, each one a class name, keep the class string full. */
  lemma {:induction false} ClassNameStringValid(classes: string, classNames: seq<string>)
    requires FT.ValidClasses(classes)
    requires forall k :: 0 <= k < |classNames| ==> FT.ClassName(classNames[k])
    ensures FT.ValidClasses(classes + ClassNameString(classes, classNames))
    decreases |classNames|
  {
    if |classNames| > 0 {
      var init := classNames[..|classNames| - 1];
      var c := classNames[|classNames| - 1];
      ClassNameStringValid(classes, init);
      assert classNames[..|classNames| - 1] == init;
      assert ClassNameString(classes, classNames) == ClassNameString(classes, init) + NewClass(classes, c);
      var a := classes + ClassNameString(classes, init);
      ConcatAssoc(classes, ClassNameString(classes, init), NewClass(classes, c));
      assert classes + ClassNameString(classes, classNames) == a + NewClass(classes, c);
      if !Contains(classes, c) {
        assert FT.ClassName(c);
        FT.AddClass(a, c);
        ConcatAssoc(a, ".", c);
        assert FT.ValidClasses(a + NewClass(classes, c));
      } else {
        assert a + "" == a;
      }
    } else {
      assert classes + "" == classes;
    }
  }

  /** Nothing is contained in the empty class string, so every class is written. */
  lemma {:induction false} AllNew(classNames: seq<string>)
    requires forall k :: 0 <= k < |classNames| ==> classNames[k] != ""
    ensures |classNames| > 0 ==> ClassNameString("", classNames) == "." + Join(classNames, ".")
    decreases |classNames|
  {
    if |classNames| > 0 {
      var init := classNames[..|classNames| - 1];
      var c := classNames[|classNames| - 1];
      NewInEmpty(c);
      if |init| > 0 {
        AllNew(init);
        JoinSnoc(init, c, ".");
        assert init + [c] == classNames;
        DottedSnoc(ClassNameString("", classNames), ClassNameString("", init), Join(init, "."), Join(classNames, "."), c);
      } else {
        assert Join(classNames, ".") == c;
        assert ClassNameString("", init) == "";
      }
    }
  }

  /** The empty class string contains no class name, so the name is written. */
  lemma NewInEmpty(c: string)
    requires c != ""
    ensures NewClass("", c) == "." + c
  {
    assert !OccursAt("", c, 0);
  }

  lemma DottedSnoc(x: string, y: string, j: string, jc: string, c: string)
    requires x == y + ("." + c) && y == "." + j && jc == j + "." + c
    ensures x == "." + jc
  {
    ConcatAssoc("." + j, ".", c);
    ConcatAssoc(".", j, "." + c);
  }

  lemma {:induction false} JoinSnoc(parts: seq<string>, x: string, sep: string)
    requires |parts| > 0
    ensures Join(parts + [x], sep) == Join(parts, sep) + sep + x
    decreases |parts|
  {
    var s := parts + [x];
    if |parts| == 1 {
      assert s[1..] == [x];
    } else {
      assert s[1..] == parts[1..] + [x];
      JoinSnoc(parts[1..], x, sep);
      ConcatAssoc(parts[0] + sep, Join(parts[1..], sep), sep + x);
      ConcatAssoc(parts[0] + sep + Join(parts[1..], sep), sep, x);
    }
  }

  /**
   * The new run reads back as the old one with the new classes after its
   * classes: same id, same data, the text after the run dropped. Without a
   * feature run, the classes read back are all the requested ones.
   */
  lemma AddClassesReadBack(features: string, classNames: seq<string>)
    requires forall k :: 0 <= k < |classNames| ==> FT.ClassName(classNames[k])
    requires features == "" ==> |classNames| > 0
    requires DS.Writable(FD.FeatureDataOf(features).data)
    ensures var f := FD.FeatureDataOf(features);
            FD.FeatureDataOf(AddedRun(features, classNames))
              == FD.Features(f.id, f.classes + ClassNameString(f.classes, classNames), f.data, "")
  {
    if features == "" {
      FD.PlainText(features);
      EmptyRunIsNewRun(classNames);
      assert FT.ValidClasses("") && FT.ValidId("") && DS.Writable([]);
      NewRunReadBack(FD.Features("", "", [], ""), classNames);
    } else {
      FT.FeaturesValid(features);
      NewRunReadBack(FD.FeatureDataOf(features), classNames);
    }
  }

  /** With no feature run, the added run is the one rebuilt from empty features. */
  lemma EmptyRunIsNewRun(classNames: seq<string>)
    requires |classNames| > 0 && forall k :: 0 <= k < |classNames| ==> FT.ClassName(classNames[k])
    ensures " ." + Join(classNames, ".") == NewFeatureString(FD.Features("", "", [], ""), classNames)
  {
    assert forall k :: 0 <= k < |classNames| ==> classNames[k] != "";
    AllNew(classNames);
    var cs := ClassNameString("", classNames);
    ClassesOnlyText(cs);
    assert NewFeatureString(FD.Features("", "", [], ""), classNames) == " " + cs;
    ConcatAssoc(" ", ".", Join(classNames, "."));
    assert " " + "." == " .";
  }

  lemma ClassesOnlyText(cs: string)
    ensures FT.FeatureTextOf("", "" + cs, []) == cs
  {
    DS.DataStringAppend([], "", Bool(true));
    assert "" + cs == cs;
    assert FT.FeatureTextOf("", cs, []) == "" + cs + "";
  }

  /** A rebuilt run reads as the id, the classes with the new ones, and the data it was built from. */
  lemma NewRunReadBack(f: FD.Features, classNames: seq<string>)
    requires FT.ValidId(f.id) && FT.ValidClasses(f.classes) && DS.Writable(f.data)
    requires forall k :: 0 <= k < |classNames| ==> FT.ClassName(classNames[k])
    ensures FD.FeatureDataOf(NewFeatureString(f, classNames))
              == FD.Features(f.id, f.classes + ClassNameString(f.classes, classNames), f.data, "")
  {
    var classes := f.classes + ClassNameString(f.classes, classNames);
    ClassNameStringValid(f.classes, classNames);
    FT.LeadingSpaceIgnored(FT.FeatureTextOf(f.id, classes, f.data));
    FT.FeatureTextRoundTrip(f.id, classes, f.data);
  }

  /** A text found in `a` is found in `a` followed by anything, and in anything followed by `a`. */
  lemma ContainsConcat(a: string, b: string, p: string)
    ensures Contains(a, p) ==> Contains(a + b, p)
    ensures Contains(b, p) ==> Contains(a + b, p)
  {
    if Contains(a, p) {
      var i := IndexOf(a, p);
      assert (a + b)[i..i + |p|] == a[i..i + |p|];
      assert OccursAt(a + b, p, i);
    }
    if Contains(b, p) {
      var i := IndexOf(b, p);
      assert (a + b)[|a| + i..|a| + i + |p|] == b[i..i + |p|];
      assert OccursAt(a + b, p, |a| + i);
    }
  }

  /** Every class the loop skips is already in the class string, and every other one is written. */
  lemma {:induction false} ClassNameStringHolds(classes: string, classNames: seq<string>)
    ensures forall k :: 0 <= k < |classNames| ==> Contains(classes, classNames[k]) || Contains(ClassNameString(classes, classNames), "." + classNames[k])
    decreases |classNames|
  {
    if |classNames| > 0 {
      var init := classNames[..|classNames| - 1];
      var c := classNames[|classNames| - 1];
      ClassNameStringHolds(classes, init);
      var s := ClassNameString(classes, init);
      forall k | 0 <= k < |classNames|
        ensures Contains(classes, classNames[k]) || Contains(ClassNameString(classes, classNames), "." + classNames[k])
      {
        if k < |init| {
          assert classNames[k] == init[k];
          ContainsConcat(s, NewClass(classes, c), "." + classNames[k]);
        } else if !Contains(classes, c) {
          assert OccursAt("." + c, "." + c, 0);
          ContainsConcat(s, "." + c, "." + c);
        }
      }
    }
  }

  /**
   * After the call, every requested class occurs, as text, in the class
   * string the new run reads back as.
   */
  lemma RequestedClassesPresent(classes: string, classNames: seq<string>)
    ensures forall k :: 0 <= k < |classNames| ==> Contains(classes + ClassNameString(classes, classNames), classNames[k])
  {
    ClassNameStringHolds(classes, classNames);
    forall k | 0 <= k < |classNames|
      ensures Contains(classes + ClassNameString(classes, classNames), classNames[k])
    {
      var n := classNames[k];
      var s := ClassNameString(classes, classNames);
      if !Contains(classes, n) {
        DotNameContains(s, n);
      }
      ContainsConcat(classes, s, n);
    }
  }

  /** Where `.name` occurs, `name` occurs one place further on. */
  lemma DotNameContains(s: string, n: string)
    requires Contains(s, "." + n)
    ensures Contains(s, n)
  {
    var i := IndexOf(s, "." + n);
    assert s[i + 1..i + 1 + |n|] == ("." + n)[1..] == n;
    OccursContains(s, n, i + 1);
  }

  lemma OccursContains(s: string, p: string, i: nat)
    requires OccursAt(s, p, i)
    ensures Contains(s, p)
  {
  }

  // ---------------------------------------------------------------------------
  // The skip test is on text, not on class names

  /** `.className` stands in the class string as a whole class: followed by the end or by the next class. */
  predicate HasClass(classes: string, className: string) {
    exists i :: 0 <= i < |classes| && OccursAt(classes, "." + className, i)
                && (i + 1 + |className| == |classes| || classes[i + 1 + |className|] == '.')
  }

  /**
   * As written, a class whose name is part of an existing class name is
   * skipped: asking for `foo` on `.foobar` adds nothing, and `foo` is then
   * not a class of the run.
   */
  lemma SubstringSkipsClass()
    ensures ClassNameString(".foobar", ["foo"]) == ""
    ensures !HasClass(".foobar" + ClassNameString(".foobar", ["foo"]), "foo")
  {
    var classes := ".foobar";
    assert classes[1..4] == "foo";
    assert OccursAt(classes, "foo", 1);
    assert Contains(classes, "foo");
    assert ["foo"][..0] == [];
    assert ClassNameString(classes, ["foo"]) == "" + "";
    assert classes + "" == classes;
    var n := "foo";
    assert "." + n == ".foo";
    forall i | 0 <= i < |classes| && OccursAt(classes, "." + n, i)
      ensures !(i + 1 + |n| == |classes| || classes[i + 1 + |n|] == '.')
    {
      assert classes[i] == '.';
      assert i == 0;
    }
  }

  /** One step of the loop as evidently meant: skip a class only when the run already has that class. */
  function IntendedNewClass(classes: string, className: string): string {
    if HasClass(classes, className) then "" else "." + className
  }

  /** `classNameString` with the class test in place of the text test. */
  function IntendedClassNameString(classes: string, classNames: seq<string>): (r: string)
    ensures r == "" || r[0] == '.'
    decreases |classNames|
  {
    if |classNames| == 0 then ""
    else IntendedClassNameString(classes, classNames[..|classNames| - 1]) + IntendedNewClass(classes, classNames[|classNames| - 1])
  }

  /** A whole class stays whole when a class string follows, and when something comes before it. */
  lemma HasClassConcat(a: string, b: string, className: string)
    requires b == "" || b[0] == '.'
    ensures HasClass(a, className) ==> HasClass(a + b, className)
    ensures HasClass(b, className) ==> HasClass(a + b, className)
  {
    var p := "." + className;
    if HasClass(a, className) {
      var i :| 0 <= i < |a| && OccursAt(a, p, i) && (i + 1 + |className| == |a| || a[i + 1 + |className|] == '.');
      assert (a + b)[i..i + |p|] == a[i..i + |p|];
      assert OccursAt(a + b, p, i);
    }
    if HasClass(b, className) {
      var i :| 0 <= i < |b| && OccursAt(b, p, i) && (i + 1 + |className| == |b| || b[i + 1 + |className|] == '.');
      assert (a + b)[|a| + i..|a| + i + |p|] == b[i..i + |p|];
      assert OccursAt(a + b, p, |a| + i);
    }
  }

  /** Every requested class is skipped because the run has it, or written. */
  lemma {:induction false} IntendedHolds(classes: string, classNames: seq<string>)
    ensures forall k :: 0 <= k < |classNames| ==>
              HasClass(classes, classNames[k]) || HasClass(IntendedClassNameString(classes, classNames), classNames[k])
    decreases |classNames|
  {
    if |classNames| > 0 {
      var init := classNames[..|classNames| - 1];
      var c := classNames[|classNames| - 1];
      IntendedHolds(classes, init);
      var s := IntendedClassNameString(classes, init);
      var t := IntendedNewClass(classes, c);
      assert IntendedClassNameString(classes, classNames) == s + t;
      forall k | 0 <= k < |classNames|
        ensures HasClass(classes, classNames[k]) || HasClass(s + t, classNames[k])
      {
        if k < |init| {
          assert classNames[k] == init[k];
          HasClassConcat(s, t, classNames[k]);
        } else if !HasClass(classes, c) {
          assert OccursAt(t, "." + c, 0);
          assert HasClass(t, c);
          HasClassConcat(s, t, c);
        }
      }
    }
  }

  /** With the class test, every requested class is a class of the run afterwards. */
  lemma IntendedClassesPresent(classes: string, classNames: seq<string>)
    ensures forall k :: 0 <= k < |classNames| ==> HasClass(classes + IntendedClassNameString(classes, classNames), classNames[k])
  {
    IntendedHolds(classes, classNames);
    forall k | 0 <= k < |classNames|
      ensures HasClass(classes + IntendedClassNameString(classes, classNames), classNames[k])
    {
      HasClassConcat(classes, IntendedClassNameString(classes, classNames), classNames[k]);
    }
  }
}
