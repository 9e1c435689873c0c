/**
 * The feature run the line-patch operations write back: `#id`, the class
 * string and the attribute text of `dataToString`, one after the other.
 * Reading such a run with `getFeatureData` gives back the id, the classes
 * and the data it was written from.
 */
module FeatureText {
  import opened JsString
  import opened Types
  import FD = FeatureData
  import DS = DataToString
  import S = Stringify

  /** An id the pattern `#[\w-]+` reads in full (or no id). */
  predicate ValidId(id: string) {
    forall i :: 0 <= i < |id| ==> FD.IsIdChar(id[i])
  }

  /** A class string the pattern `(\.[A-Za-z][\w-]*)*` reads in full. */
  predicate ValidClasses(c: string) {
    FD.ClassesGroup(c) == c
  }

  /** A class name `[A-Za-z][\w-]*`, written without its dot. */
  predicate ClassName(c: string) {
    |c| > 0 && IsLetter(c[0]) && ValidId(c)
  }

  /** `#id`, or nothing when the id is empty. */
  function IdText(id: string): string {
    if id != "" then "#" + id else ""
  }

  /** The feature run of an id, a class string and a data object. */
  function FeatureTextOf(id: string, classes: string, data: Data): string {
    IdText(id) + classes + DS.DataString(data)
  }

  // ---------------------------------------------------------------------------
  // The groups of the feature pattern on a written run

  lemma {:induction false} IdCharRunConcat(x: string, rest: string)
    requires ValidId(x) && (rest == "" || !FD.IsIdChar(rest[0]))
    ensures FD.IdCharRun(x + rest) == |x|
    decreases |x|
  {
    if |x| > 0 {
      assert (x + rest)[1..] == x[1..] + rest;
      assert forall i :: 0 <= i < |x| - 1 ==> x[1..][i] == x[i + 1];
      IdCharRunConcat(x[1..], rest);
    } else {
      assert x + rest == rest;
    }
  }

  /** The first class of a full class string: `.`, a letter and a run of `[\w-]` ending where the next class starts. */
  lemma ClassesUnfold(a: string)
    requires ValidClasses(a) && a != ""
    ensures |a| >= 2 && a[0] == '.' && IsLetter(a[1])
    ensures var n := 2 + FD.IdCharRun(a[2..]);
            n <= |a| && ValidClasses(a[n..]) && ValidId(a[2..n]) && (a[n..] == "" || a[n] == '.')
  {
    var n := 2 + FD.IdCharRun(a[2..]);
    var tail := a[n..];
    assert a == a[..n] + FD.ClassesGroup(tail);
    assert FD.ClassesGroup(tail) == tail;
    FD.RunsAreMaximal(a[2..], '.');
    forall i | 0 <= i < n - 2
      ensures FD.IsIdChar(a[2..n][i])
    {
      assert a[2..n][i] == a[2..][i];
    }
    if tail != "" {
      assert tail[0] == '.';
    }
  }

  /** The run of the first class is not lengthened by what follows the class string. */
  lemma FirstRunConcat(a: string, b: string, n: nat)
    requires 2 <= n <= |a| && ValidId(a[2..n]) && (a[n..] == "" || a[n] == '.')
    requires b == "" || !FD.IsIdChar(b[0])
    ensures FD.IdCharRun((a + b)[2..]) == n - 2
  {
    var s := a + b;
    if n == |a| {
      assert s[2..] == a[2..n] + b;
      IdCharRunConcat(a[2..n], b);
    } else {
      assert s[2..] == a[2..n] + (a[n..] + b);
      IdCharRunConcat(a[2..n], a[n..] + b);
    }
  }

  /** A full class string followed by text that cannot continue a class keeps its reading. */
  lemma {:induction false} ClassesGroupConcat(a: string, b: string)
    requires ValidClasses(a) && (b == "" || !FD.IsIdChar(b[0]))
    ensures FD.ClassesGroup(a + b) == a + FD.ClassesGroup(b)
    decreases |a|
  {
    if a == "" {
      assert a + b == b;
    } else {
      ClassesUnfold(a);
      var n := 2 + FD.IdCharRun(a[2..]);
      FirstRunConcat(a, b, n);
      ClassesGroupConcat(a[n..], b);
      FirstClassConcat(a, b, n, FD.ClassesGroup(b));
    }
  }

  /** The first class of `a` is read first from `a + b`, then what follows it. */
  lemma FirstClassConcat(a: string, b: string, n: nat, g: string)
    requires 2 <= n <= |a| && a[0] == '.' && IsLetter(a[1]) && FD.IdCharRun((a + b)[2..]) == n - 2
    requires FD.ClassesGroup(a[n..] + b) == a[n..] + g
    ensures FD.ClassesGroup(a + b) == a + g
  {
    var s := a + b;
    CutConcat(a, b, n);
    ClassesStep(s, n);
    Glue(FD.ClassesGroup(s), s[..n], FD.ClassesGroup(s[n..]), a[..n], a[n..], g, a);
  }

  /** Cutting `a + b` inside `a`. */
  lemma CutConcat(a: string, b: string, n: nat)
    requires n <= |a|
    ensures (a + b)[n..] == a[n..] + b && (a + b)[..n] == a[..n] && a == a[..n] + a[n..]
  {
  }

  lemma Glue(x: string, p: string, q: string, h: string, tail: string, g: string, a: string)
    requires x == p + q && p == h && q == tail + g && a == h + tail
    ensures x == a + g
  {
    ConcatAssoc(h, tail, g);
  }

  lemma ClassesStep(s: string, n: nat)
    requires |s| >= 2 && s[0] == '.' && IsLetter(s[1]) && n == 2 + FD.IdCharRun(s[2..])
    ensures FD.ClassesGroup(s) == s[..n] + FD.ClassesGroup(s[n..])
  {
  }

  lemma ClassesGroupOne(c: string)
    requires ClassName(c)
    ensures FD.ClassesGroup("." + c) == "." + c
  {
    var s := "." + c;
    assert s[2..] == c[1..];
    assert ValidId(c[1..]) by {
      assert forall i :: 0 <= i < |c| - 1 ==> c[1..][i] == c[i + 1];
    }
    FD.IdCharRunOf(c[1..]);
    assert s[|s|..] == "";
    assert s[..|s|] == s;
  }

  /** Appending `.c` to a full class string gives a full class string. */
  lemma AddClass(a: string, c: string)
    requires ValidClasses(a) && ClassName(c)
    ensures ValidClasses(a + "." + c)
  {
    ClassesGroupOne(c);
    ClassesGroupConcat(a, "." + c);
    ConcatAssoc(a, ".", c);
  }

  /** Reading the class group of any text gives a full class string: the group reads as itself. */
  lemma {:induction false} ClassesGroupValid(s: string)
    ensures ValidClasses(FD.ClassesGroup(s))
    decreases |s|
  {
    if |s| >= 2 && s[0] == '.' && IsLetter(s[1]) {
      var n := 2 + FD.IdCharRun(s[2..]);
      var rest := FD.ClassesGroup(s[n..]);
      ClassesGroupValid(s[n..]);
      FD.RunsAreMaximal(s[2..], '.');
      var x := s[2..n];
      assert ValidId(x) by {
        assert forall i :: 0 <= i < |x| ==> x[i] == s[2..][i];
      }
      if rest != "" {
        assert rest[0] == s[n..][0];
      }
      var t := s[..n] + rest;
      assert t[2..] == x + rest;
      IdCharRunConcat(x, rest);
      ClassesStep(t, n);
      assert t[..n] == s[..n] && t[n..] == rest;
    }
  }

  /** The id of a feature match, without its `#`, is a valid id, and its class group a full class string. */
  lemma FeatureRunValid(line: string)
    ensures var m := FD.FeatureRunAt(line);
            (m.id != "" ==> ValidId(m.id[1..])) && ValidClasses(m.classes)
  {
    var m := FD.FeatureRunAt(line);
    if m.id != "" {
      var t := line[1..];
      FD.RunsAreMaximal(t, '.');
      assert m.id[1..] == t[..FD.IdCharRun(t)];
      assert forall i :: 0 <= i < |m.id[1..]| ==> m.id[1..][i] == t[i];
    }
    ClassesGroupValid(line[|m.id|..]);
  }

  /** The id and classes the extraction loop keeps are always a valid id and a full class string. */
  lemma {:induction false} ExtractValid(line: string, id: string, classes: string, attributes: string)
    requires ValidId(id) && ValidClasses(classes)
    ensures var r := FD.ExtractLoop(line, id, classes, attributes);
            ValidId(r.0) && ValidClasses(r.1)
    decreases |line|
  {
    var m := FD.FeatureRunAt(line);
    if m.Replace() != "" {
      FD.RemoveShortens(line, m.Replace());
      FeatureRunValid(line);
      ExtractValid(Trim(ReplaceFirst(line, m.Replace(), "")),
                   if m.id != "" then m.id[1..] else id,
                   if m.classes != "" then m.classes else classes,
                   if m.attributes != "" then m.attributes else attributes);
    }
  }

  /** What `getFeatureData` returns has a valid id and a full class string, so it can be written back. */
  lemma FeaturesValid(s: string)
    ensures ValidId(FD.FeatureDataOf(s).id) && ValidClasses(FD.FeatureDataOf(s).classes)
  {
    assert ValidClasses("");
    ExtractValid(Trim(s), "", "", "");
  }

  /** Every character of a class group is a dot or a `[\w-]` character. */
  lemma {:induction false} ClassesChars(s: string)
    ensures forall i :: 0 <= i < |FD.ClassesGroup(s)| ==> FD.ClassesGroup(s)[i] == '.' || FD.IsIdChar(FD.ClassesGroup(s)[i])
    decreases |s|
  {
    if |s| >= 2 && s[0] == '.' && IsLetter(s[1]) {
      var n := 2 + FD.IdCharRun(s[2..]);
      ClassesChars(s[n..]);
      FD.RunsAreMaximal(s[2..], '.');
      var r := FD.ClassesGroup(s);
      var rest := FD.ClassesGroup(s[n..]);
      assert r == s[..n] + rest;
      forall i | 0 <= i < |r|
        ensures r[i] == '.' || FD.IsIdChar(r[i])
      {
        if i >= n {
          assert r[i] == rest[i - n];
        } else if i >= 2 {
          assert r[i] == s[2..][i - 2];
        }
      }
    }
  }

  lemma {:induction false} AttributesGroupPieces(ps: seq<string>, ms: seq<FD.AttrMatch>)
    requires S.PiecesRead(ps, ms)
    ensures FD.AttributesGroup(S.Concat(ps)) == S.Concat(ps)
    decreases |ps|
  {
    if |ps| > 0 {
      var t := S.Concat(ps);
      assert t == ps[0] + S.Concat(ps[1..]);
      AttributesGroupPieces(ps[1..], ms[1..]);
      AttributesGroupStep(t, ms[0], ps[0], S.Concat(ps[1..]));
    } else {
      assert FD.AttrPrefix("") == None;
    }
  }

  /** A match at the start followed by text read in full as attributes is read in full. */
  lemma AttributesGroupStep(t: string, m: FD.AttrMatch, p: string, rest: string)
    requires t == p + rest && FD.AttrPrefix(t) == Some(m) && m.length == |p| && FD.AttributesGroup(rest) == rest
    ensures FD.AttributesGroup(t) == t
  {
    assert t[m.length..] == rest;
    assert t[..m.length] == p;
  }

  /** The attribute text of writable data is read in full as consecutive attributes. */
  lemma DataStringGroup(d: Data)
    requires DS.Writable(d)
    ensures FD.AttributesGroup(DS.DataString(d)) == DS.DataString(d)
  {
    DS.EntriesRead(d);
    AttributesGroupPieces(DS.EntryStrings(d), DS.EntryStringMatches(d));
  }

  /** Attribute text starts with `[`, so no class is read from it. */
  lemma DataStringStart(d: Data)
    ensures DS.DataString(d) == "" || DS.DataString(d)[0] == '['
    ensures FD.ClassesGroup(DS.DataString(d)) == ""
  {
    if |d| > 0 {
      var ps := DS.EntryStrings(d);
      assert S.Concat(ps) == ps[0] + S.Concat(ps[1..]);
      assert ps[0] == DS.EntryString(d[0].0, d[0].1);
    }
  }

  /** The attribute text of non-empty writable data ends with `]`. */
  lemma DataStringEnd(d: Data)
    requires DS.Writable(d) && |d| > 0
    ensures |DS.DataString(d)| > 0 && DS.DataString(d)[|DS.DataString(d)| - 1] == ']'
  {
    var n := |d| - 1;
    assert d == d[..n] + [d[n]];
    DS.DataStringAppend(d[..n], d[n].0, d[n].1);
    assert DS.WritableEntry(d[n].0, d[n].1);
  }

  /** The id group of `#id` followed by a class or an attribute is `#id`. */
  lemma IdGroupOfText(id: string, rest: string)
    requires ValidId(id) && (rest == "" || rest[0] == '.' || rest[0] == '[')
    ensures FD.IdGroup(IdText(id) + rest) == IdText(id)
  {
    var t := IdText(id) + rest;
    if id != "" {
      assert t == "#" + (id + rest);
      assert t[1..] == id + rest;
      IdCharRunConcat(id, rest);
      assert t[..1 + |id|] == "#" + id;
    } else {
      assert t == rest;
    }
  }

  /** What follows the id of a written run starts a class or an attribute, if anything. */
  lemma RestStart(classes: string, d: Data)
    requires ValidClasses(classes)
    ensures var rest := classes + DS.DataString(d);
            rest == "" || rest[0] == '.' || rest[0] == '['
  {
    DataStringStart(d);
    if classes != "" {
      ClassesUnfold(classes);
    }
  }

  /** The groups of the feature pattern at the start of a written run are the id, the classes and the attributes. */
  lemma FeatureRunOfText(id: string, classes: string, d: Data)
    requires ValidId(id) && ValidClasses(classes) && DS.Writable(d)
    ensures FD.FeatureRunAt(FeatureTextOf(id, classes, d)) == FD.FeatureRun(IdText(id), classes, DS.DataString(d))
  {
    var a := DS.DataString(d);
    var rest := classes + a;
    var t := IdText(id) + rest;
    ConcatAssoc(IdText(id), classes, a);
    RestStart(classes, d);
    IdGroupOfText(id, rest);
    assert t[|IdText(id)|..] == rest;
    DataStringStart(d);
    ClassesGroupConcat(classes, a);
    assert rest[|classes|..] == a;
    DataStringGroup(d);
    RunOfGroups(t, IdText(id), classes, a);
  }

  lemma RunOfGroups(line: string, id: string, classes: string, attributes: string)
    requires FD.IdGroup(line) == id
    requires FD.ClassesGroup(line[|id|..]) == classes
    requires FD.AttributesGroup(line[|id|..][|classes|..]) == attributes
    ensures FD.FeatureRunAt(line) == FD.FeatureRun(id, classes, attributes)
  {
  }

  /** A written run starts and ends with a non-space, so `trim` leaves it as it is. */
  lemma TextTrimmed(id: string, classes: string, d: Data)
    requires ValidId(id) && ValidClasses(classes) && DS.Writable(d)
    ensures Trim(FeatureTextOf(id, classes, d)) == FeatureTextOf(id, classes, d)
  {
    var t := FeatureTextOf(id, classes, d);
    if t != "" {
      TextStart(id, classes, d);
      TextEnd(id, classes, d);
      TrimFixed(t);
    }
  }

  /** A written run starts with `#`, `.` or `[`. */
  lemma TextStart(id: string, classes: string, d: Data)
    requires ValidClasses(classes)
    ensures var t := FeatureTextOf(id, classes, d);
            t == "" || t[0] == '#' || t[0] == '.' || t[0] == '['
  {
    var t := FeatureTextOf(id, classes, d);
    var a := DS.DataString(d);
    DataStringStart(d);
    ConcatAssoc(IdText(id), classes, a);
    if id != "" {
      assert t[0] == '#';
    } else if classes != "" {
      ClassesUnfold(classes);
      assert t[0] == classes[0];
    } else {
      assert t == a;
    }
  }

  /** A written run ends with `]`, a class character or an id character. */
  lemma TextEnd(id: string, classes: string, d: Data)
    requires ValidId(id) && ValidClasses(classes) && DS.Writable(d)
    ensures var t := FeatureTextOf(id, classes, d);
            t == "" || !IsSpace(t[|t| - 1])
  {
    var t := FeatureTextOf(id, classes, d);
    var a := DS.DataString(d);
    if |d| > 0 {
      DataStringEnd(d);
      assert t[|t| - 1] == a[|a| - 1];
    } else if t != "" {
      DS.EmptyDataString(d);
      ClassesChars(classes);
      assert t == IdText(id) + classes;
      if classes != "" {
        assert t[|t| - 1] == classes[|classes| - 1];
      } else {
        assert t[|t| - 1] == id[|id| - 1];
      }
    }
  }

  /** The extraction loop on a whole written run: one round removes it all. */
  lemma ExtractText(id: string, classes: string, d: Data)
    requires ValidId(id) && ValidClasses(classes) && DS.Writable(d)
    ensures FD.ExtractLoop(FeatureTextOf(id, classes, d), "", "", "") == (id, classes, DS.DataString(d), "")
  {
    var t := FeatureTextOf(id, classes, d);
    FeatureRunOfText(id, classes, d);
    var m := FD.FeatureRunAt(t);
    ConcatAssoc(IdText(id), classes, DS.DataString(d));
    assert m.Replace() == t;
    if t == "" {
      DS.EmptyDataString(d);
    } else {
      ReplacePrefix(t, t);
      assert t[|t|..] == "";
      assert Trim("") == "";
      var e := FD.FeatureRunAt("");
      assert FD.AttrPrefix("") == None;
      assert e.Replace() == "";
      if id != "" {
        assert IdText(id)[1..] == id;
      }
    }
  }

  /**
   * `getFeatureData` on a written run gives back its id, its classes and
   * its data, and nothing is left over.
   */
  lemma FeatureTextRoundTrip(id: string, classes: string, d: Data)
    requires ValidId(id) && ValidClasses(classes) && DS.Writable(d)
    ensures FD.FeatureDataOf(FeatureTextOf(id, classes, d)) == FD.Features(id, classes, d, "")
  {
    TextTrimmed(id, classes, d);
    ExtractText(id, classes, d);
    DS.EmptyDataString(d);
    if DS.DataString(d) != "" {
      DS.DataStringRoundTrip(d);
    }
  }

  /** Leading spaces before a run make no difference to what `getFeatureData` reads. */
  lemma LeadingSpaceIgnored(s: string)
    ensures FD.FeatureDataOf(" " + s) == FD.FeatureDataOf(s)
  {
    var t := " " + s;
    assert t[1..] == s;
    assert TrimStart(t) == TrimStart(s);
  }

  /** Reading a trimmed text is reading the text: the reading trims first. */
  lemma TrimmedRead(s: string)
    ensures FD.FeatureDataOf(Trim(s)) == FD.FeatureDataOf(s)
  {
    TrimTrim(s);
  }
}
