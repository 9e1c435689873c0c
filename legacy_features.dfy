/**
 * The feature loop of the standalone parser: an id `#[\w-]+`, a class
 * string `(\.[a-zA-Z][\w-]*)*` and attributes `(\[\w+=\w+\])*` written
 * before a word of the label. The pattern
 * `(?<replace>(?<id>#[\w-]+)?(?<classes>...)?(?<attributes>...)) \w` with
 * the global flag is run with `exec` while it matches; each match keeps the
 * groups that are present and removes the first occurrence of its `replace`
 * text from the line, which is then trimmed. `lastIndex` is carried over
 * from the line before the removal to the line after it.
 *
 * The groups are read greedily at each position: a run can never be
 * shortened into a match, because the character after a shorter run is a
 * run character, while the pattern needs `.`, `[` or a space there.
 */
module LegacyFeatures {
  import opened JsString
  import opened Types
  import FD = FeatureData
  import FT = FeatureText
  import LP = LegacyPointers

  // ---------------------------------------------------------------------------
  // The attribute group

  /** One `\[\w+=\w+\]` at the start of `s`: its length, key and value. */
  function AttrItem(s: string): (r: Option<(nat, string, string)>)
    ensures r.Some? ==> 5 <= r.value.0 <= |s| && |r.value.1| > 0 && |r.value.2| > 0
  {
    if |s| > 0 && s[0] == '[' then
      var k := LP.WordRun(s[1..]);
      if k > 0 && 1 + k < |s| && s[1 + k] == '=' then
        var v := LP.WordRun(s[2 + k..]);
        if v > 0 && 2 + k + v < |s| && s[2 + k + v] == ']' then Some((3 + k + v, s[1..1 + k], s[2 + k..2 + k + v]))
        else None
      else None
    else None
  }

  /** `(\[\w+=\w+\])*` at the start of `s`. */
  function AttributesGroup(s: string): (r: string)
    ensures |r| <= |s| && r == s[..|r|]
    decreases |s|
  {
    match AttrItem(s)
    case None => ""
    case Some((n, _, _)) =>
      var rest := AttributesGroup(s[n..]);
      assert s[..n] + rest == s[..n + |rest|];
      s[..n] + rest
  }

  // ---------------------------------------------------------------------------
  // One match of the feature pattern

  /** The `id`, `classes` and `attributes` groups; `replace` is their concatenation. */
  datatype Groups = Groups(id: string, classes: string, attributes: string) {
    function Replace(): string { id + classes + attributes }
  }

  /** The groups read at the start of `t`. */
  function GroupsAt(t: string): (r: Groups)
    ensures |r.Replace()| <= |t| && r.Replace() == t[..|r.Replace()|]
  {
    var id := FD.IdGroup(t);
    var rest1 := t[|id|..];
    var classes := FD.ClassesGroup(rest1);
    var rest2 := rest1[|classes|..];
    var attributes := AttributesGroup(rest2);
    FD.PrefixConcat(t, id, classes, attributes);
    Groups(id, classes, attributes)
  }

  /** A match: `s[start..end]` is the replace text, a space and one word character. */
  datatype FeatureMatch = FeatureMatch(start: nat, end: nat, groups: Groups)

  /** The pattern tried at position `p`: the groups, then a space and a word character. */
  function MatchAt(s: string, p: nat): (r: Option<FeatureMatch>)
    requires p <= |s|
    ensures r.Some? ==> r.value.start == p && r.value.end == p + |r.value.groups.Replace()| + 2 <= |s|
  {
    var g := GroupsAt(s[p..]);
    var q := p + |g.Replace()|;
    if q + 1 < |s| && s[q] == ' ' && IsWordChar(s[q + 1]) then Some(FeatureMatch(p, q + 2, g)) else None
  }

  /** What `re.exec(line)` finds when `lastIndex` is `from`. */
  function NextMatch(s: string, from: nat): (r: Option<FeatureMatch>)
    requires from <= |s|
    ensures r.Some? ==> from <= r.value.start && r.value.start + 2 <= r.value.end <= |s|
    ensures r.Some? ==> r == MatchAt(s, r.value.start)
    decreases |s| - from
  {
    var m := MatchAt(s, from);
    if m.Some? then m else if from == |s| then None else NextMatch(s, from + 1)
  }

  /** The line after one match: its replace text removed and the line trimmed, when it is not empty. */
  function AfterMatch(line: string, g: Groups): (r: string)
    ensures |r| <= |line|
  {
    if g.Replace() != "" then
      TrimShorter(ReplaceFirst(line, g.Replace(), ""));
      Trim(ReplaceFirst(line, g.Replace(), ""))
    else line
  }

  /**
   * The `exec` loop from `lastIndex` on, with the id (without `#`), classes
   * and attributes found so far. Past the end of the line `exec` fails.
   */
  function ExtractLoop(line: string, lastIndex: nat, id: string, classes: string, attributes: string)
    : (string, string, string, string)
    decreases if lastIndex <= |line| then |line| + 1 - lastIndex else 0
  {
    if lastIndex > |line| then (id, classes, attributes, line)
    else
      match NextMatch(line, lastIndex)
      case None => (id, classes, attributes, line)
      case Some(m) =>
        var g := m.groups;
        ExtractLoop(AfterMatch(line, g), m.end,
                    if g.id != "" then g.id[1..] else id,
                    if g.classes != "" then g.classes else classes,
                    if g.attributes != "" then g.attributes else attributes)
  }

  /** The id, classes, attributes and remaining line the loop leaves for a trimmed line. */
  function ExtractOf(line: string): (string, string, string, string) {
    ExtractLoop(line, 0, "", "", "")
  }

  /** The feature loop of `parse`. */
  method ExtractFeatures(input: string) returns (id: string, classes: string, attributes: string, line: string)
    ensures (id, classes, attributes, line) == ExtractOf(input)
  {
    line := input;
    id, classes, attributes := "", "", "";
    var lastIndex: nat := 0;
    while lastIndex <= |line|
      invariant ExtractLoop(line, lastIndex, id, classes, attributes) == ExtractOf(input)
      decreases if lastIndex <= |line| then |line| + 1 - lastIndex else 0
    {
      var next := NextMatch(line, lastIndex);
      if next.None? {
        break;
      }
      var m := next.value;
      if m.groups.id != "" {
        id := m.groups.id[1..];
      }
      if m.groups.classes != "" {
        classes := m.groups.classes;
      }
      if m.groups.attributes != "" {
        attributes := m.groups.attributes;
      }
      line := AfterMatch(line, m.groups);
      lastIndex := m.end;
    }
  }

  // ---------------------------------------------------------------------------
  // The attribute loop

  /** A match of `\[(\w+)=(\w+)\]` in an attribute group: where it starts, its length, key and value. */
  datatype AttrHit = AttrHit(pos: nat, length: nat, key: string, value: string) {
    /** Where the match ends: the loop's next `lastIndex`. */
    function End(): nat { pos + length }
  }

  /** The first position `>= from` where the attribute pattern matches. */
  function NextAttr(s: string, from: nat): (r: Option<AttrHit>)
    requires from <= |s|
    ensures r.Some? ==> from <= r.value.pos && r.value.End() <= |s| && r.value.length > 0
    decreases |s| - from
  {
    if from == |s| then None
    else
      var m := AttrItem(s[from..]);
      if m.Some? then Some(AttrHit(from, m.value.0, m.value.1, m.value.2)) else NextAttr(s, from + 1)
  }

  /** The `exec` loop from `from` on: each match assigns `data[key] = value`, the next search starts where it ended. */
  function ReadFrom(s: string, from: nat, d: Data): Data
    requires from <= |s|
    decreases |s| - from
  {
    var next := NextAttr(s, from);
    if next.None? then d
    else
      var m := next.value;
      ReadFrom(s, m.End(), Set(d, m.key, Str(m.value)))
  }

  /** The data object of an attribute group. */
  function DataOf(attributes: string): Data {
    ReadFrom(attributes, 0, [])
  }

  /** The attribute loop of `parse`. */
  method ReadAttributes(attributes: string) returns (data: Data)
    ensures data == DataOf(attributes)
  {
    data := [];
    var lastIndex: nat := 0;
    while true
      invariant lastIndex <= |attributes|
      invariant ReadFrom(attributes, lastIndex, data) == DataOf(attributes)
      decreases |attributes| - lastIndex
    {
      var next := NextAttr(attributes, lastIndex);
      ReadStep(attributes, lastIndex, data, next);
      if next.None? {
        break;
      }
      var m := next.value;
      data := Set(data, m.key, Str(m.value));
      lastIndex := m.End();
    }
  }

  /** One turn of the loop: it stops where nothing matches, and assigns the match otherwise. */
  lemma ReadStep(s: string, from: nat, d: Data, next: Option<AttrHit>)
    requires from <= |s| && next == NextAttr(s, from)
    ensures next.None? ==> ReadFrom(s, from, d) == d
    ensures next.Some? ==> ReadFrom(s, from, d) == ReadFrom(s, next.value.End(), Set(d, next.value.key, Str(next.value.value)))
  {
  }

  lemma SuffixOfSuffix(s: string, i: nat, j: nat)
    requires i + j <= |s|
    ensures s[i..][j..] == s[i + j..]
  {
  }

  // ---------------------------------------------------------------------------
  // Properties

  /** A line without `#`, `.` or `[`: no feature can start in it. */
  predicate Plain(s: string) {
    forall i :: 0 <= i < |s| ==> s[i] != '#' && s[i] != '.' && s[i] != '['
  }

  lemma GroupsEmpty(t: string)
    requires t == "" || (t[0] != '#' && t[0] != '.' && t[0] != '[')
    ensures GroupsAt(t) == Groups("", "", "")
  {
  }

  /**
   * On a plain line every match has empty groups, so the loop changes
   * nothing from any `lastIndex` on.
   */
  lemma {:induction false} PlainTail(line: string, lastIndex: nat, id: string, classes: string, attributes: string)
    requires Plain(line)
    ensures ExtractLoop(line, lastIndex, id, classes, attributes) == (id, classes, attributes, line)
    decreases if lastIndex <= |line| then |line| + 1 - lastIndex else 0
  {
    if lastIndex <= |line| {
      var next := NextMatch(line, lastIndex);
      if next.Some? {
        var m := next.value;
        GroupsEmpty(line[m.start..]);
        PlainTail(line, m.end, id, classes, attributes);
      }
    }
  }

  /** A plain line is all label: no id, no classes, no attributes. */
  lemma PlainLine(line: string)
    requires Plain(line)
    ensures ExtractOf(line) == ("", "", "", line)
  {
    PlainTail(line, 0, "", "", "");
  }

  lemma {:induction false} WordRunConcat(x: string, rest: string)
    requires forall i :: 0 <= i < |x| ==> IsWordChar(x[i])
    requires rest == "" || !IsWordChar(rest[0])
    ensures LP.WordRun(x + rest) == |x|
    decreases |x|
  {
    if |x| > 0 {
      assert (x + rest)[1..] == x[1..] + rest;
      WordRunConcat(x[1..], rest);
    } else {
      assert x + rest == rest;
    }
  }

  /** A non-empty run of word characters. */
  predicate Word(x: string) {
    |x| > 0 && forall i :: 0 <= i < |x| ==> IsWordChar(x[i])
  }

  /** `[key=value]`. */
  function ItemText(key: string, value: string): string {
    "[" + key + "=" + value + "]"
  }

  /** Attributes written out one after the other. */
  function AttrText(items: seq<(string, string)>): string {
    if |items| == 0 then "" else ItemText(items[0].0, items[0].1) + AttrText(items[1..])
  }

  predicate WordItems(items: seq<(string, string)>) {
    forall i :: 0 <= i < |items| ==> Word(items[i].0) && Word(items[i].1)
  }

  /** `data[key] = value` for every item, in order. */
  function SetAll(d: Data, items: seq<(string, string)>): Data
    decreases |items|
  {
    if |items| == 0 then d else SetAll(Set(d, items[0].0, Str(items[0].1)), items[1..])
  }

  /** One written attribute is read back whatever follows it. */
  lemma ItemAt(key: string, value: string, rest: string)
    requires Word(key) && Word(value)
    ensures AttrItem(ItemText(key, value) + rest) == Some((|ItemText(key, value)|, key, value))
  {
    var s := ItemText(key, value) + rest;
    var k := |key|;
    assert s[1..] == key + ("=" + value + "]" + rest);
    WordRunConcat(key, "=" + value + "]" + rest);
    assert s[2 + k..] == value + ("]" + rest);
    WordRunConcat(value, "]" + rest);
    assert s[1..1 + k] == key;
    assert s[2 + k..2 + k + |value|] == value;
  }

  /** Written attributes followed by text that does not open a bracket form the attribute group. */
  lemma {:induction false} AttributesGroupOf(items: seq<(string, string)>, t: string)
    requires WordItems(items)
    requires t == "" || t[0] != '['
    ensures AttributesGroup(AttrText(items) + t) == AttrText(items)
    decreases |items|
  {
    if |items| == 0 {
      assert AttrText(items) + t == t;
    } else {
      var (k, v) := items[0];
      var it := ItemText(k, v);
      var rest := AttrText(items[1..]) + t;
      assert AttrText(items) + t == it + rest;
      ItemAt(k, v, rest);
      AttributesGroupOf(items[1..], t);
      AttributesGroupStep(it, rest, k, v);
    }
  }

  lemma AttributesGroupStep(it: string, rest: string, k: string, v: string)
    requires AttrItem(it + rest) == Some((|it|, k, v))
    ensures AttributesGroup(it + rest) == it + AttributesGroup(rest)
  {
    var s := it + rest;
    assert s[|it|..] == rest;
    assert s[..|it|] == it;
  }

  /** Reading written attributes sets each key to its value, in order. */
  lemma {:induction false} ReadFromItems(s: string, from: nat, items: seq<(string, string)>, d: Data)
    requires from <= |s| && s[from..] == AttrText(items) && WordItems(items)
    ensures ReadFrom(s, from, d) == SetAll(d, items)
    decreases |items|
  {
    if |items| > 0 {
      var (k, v) := items[0];
      var it := ItemText(k, v);
      ItemAt(k, v, AttrText(items[1..]));
      assert s[from..] == it + AttrText(items[1..]);
      var m := AttrHit(from, |it|, k, v);
      NextAttrHere(s, from, m);
      ReadStep(s, from, d, Some(m));
      assert s[m.End()..] == AttrText(items[1..]) by {
        SuffixOfSuffix(s, from, |it|);
      }
      ReadFromItems(s, m.End(), items[1..], Set(d, k, Str(v)));
    } else {
      assert NextAttr(s, from) == None by {
        assert from == |s|;
      }
      ReadStep(s, from, d, None);
    }
  }

  /** An attribute at `from` is the next match. */
  lemma NextAttrHere(s: string, from: nat, m: AttrHit)
    requires from < |s| && m.pos == from && AttrItem(s[from..]) == Some((m.length, m.key, m.value))
    ensures NextAttr(s, from) == Some(m)
  {
  }

  /** `[k1=v1][k2=v2]...` gives the data object with each key set to its value, the last one winning. */
  lemma DataOfItems(items: seq<(string, string)>)
    requires WordItems(items)
    ensures DataOf(AttrText(items)) == SetAll([], items)
  {
    ReadFromItems(AttrText(items), 0, items, []);
  }

  /** The feature run `#id` + classes + attributes. */
  function RunText(id: string, classes: string, items: seq<(string, string)>): string {
    FT.IdText(id) + classes + AttrText(items)
  }

  lemma IdGroupBefore(id: string, rest: string)
    requires FT.ValidId(id) && (rest == "" || (!FD.IsIdChar(rest[0]) && rest[0] != '#'))
    ensures FD.IdGroup(FT.IdText(id) + rest) == FT.IdText(id)
  {
    var t := FT.IdText(id) + rest;
    if id != "" {
      assert t[1..] == id + rest;
      FT.IdCharRunConcat(id, rest);
      assert t[..1 + |id|] == "#" + id;
    } else {
      assert t == rest;
    }
  }

  lemma ItemsStart(items: seq<(string, string)>)
    ensures AttrText(items) == "" || AttrText(items)[0] == '['
  {
  }

  /** The groups at the start of a run followed by a space are the run's own id, classes and attributes. */
  lemma GroupsOfRun(id: string, classes: string, items: seq<(string, string)>, text: string)
    requires FT.ValidId(id) && FT.ValidClasses(classes) && WordItems(items)
    ensures GroupsAt(RunText(id, classes, items) + " " + text) == Groups(FT.IdText(id), classes, AttrText(items))
  {
    var a := AttrText(items);
    ItemsStart(items);
    AttributesGroupOf(items, " " + text);
    GroupsOfParts(FT.IdText(id), id, classes, a, " " + text, RunText(id, classes, items) + " " + text);
  }

  lemma GroupsOfParts(idText: string, id: string, classes: string, a: string, tail: string, t: string)
    requires idText == FT.IdText(id) && FT.ValidId(id) && FT.ValidClasses(classes)
    requires a == "" || a[0] == '['
    requires |tail| > 0 && tail[0] == ' ' && AttributesGroup(a + tail) == a
    requires t == idText + classes + a + tail
    ensures GroupsAt(t) == Groups(idText, classes, a)
  {
    var rest := classes + (a + tail);
    Assoc4(idText, classes, a, tail, t);
    AttrsThenSpace(a, tail);
    ClassesBefore(classes, a + tail);
    IdGroupBefore(id, rest);
    GroupsAtOf(t, idText, rest, classes, a + tail, a);
  }

  lemma Assoc4(w: string, x: string, y: string, z: string, t: string)
    requires t == w + x + y + z
    ensures t == w + (x + (y + z))
  {
  }

  lemma AttrsThenSpace(a: string, tail: string)
    requires a == "" || a[0] == '['
    requires |tail| > 0 && tail[0] == ' '
    ensures (a + tail)[0] == '[' || (a + tail)[0] == ' '
  {
  }

  lemma GroupsAtOf(t: string, id: string, rest: string, classes: string, tail: string, attributes: string)
    requires t == id + rest && rest == classes + tail
    requires FD.IdGroup(t) == id && FD.ClassesGroup(rest) == classes && AttributesGroup(tail) == attributes
    ensures GroupsAt(t) == Groups(id, classes, attributes)
  {
    assert t[|id|..] == rest;
    assert rest[|classes|..] == tail;
  }

  /** A full class string followed by a space or a bracket is the class group. */
  lemma ClassesBefore(classes: string, tail: string)
    requires FT.ValidClasses(classes) && |tail| > 0 && (tail[0] == '[' || tail[0] == ' ')
    ensures FD.ClassesGroup(classes + tail) == classes
    ensures classes + tail == "" || (!FD.IsIdChar((classes + tail)[0]) && (classes + tail)[0] != '#')
  {
    FT.ClassesGroupConcat(classes, tail);
    assert FD.ClassesGroup(tail) == "";
    assert classes + "" == classes;
    if classes != "" {
      FT.ClassesUnfold(classes);
      assert (classes + tail)[0] == classes[0];
    } else {
      assert classes + tail == tail;
    }
  }

  /**
   * A leading run `#id.c1.c2[k=v]...`, a space and a plain label starting
   * and ending with a word character: the loop yields the id, the class
   * string and the attribute text, and the label is what is left.
   */
  lemma LeadingFeatures(id: string, classes: string, items: seq<(string, string)>, text: string)
    requires FT.ValidId(id) && FT.ValidClasses(classes) && WordItems(items)
    requires RunText(id, classes, items) != ""
    requires Plain(text) && |text| > 0 && IsWordChar(text[0]) && IsWordChar(text[|text| - 1])
    ensures ExtractOf(RunText(id, classes, items) + " " + text) == (id, classes, AttrText(items), text)
  {
    var g := Groups(FT.IdText(id), classes, AttrText(items));
    GroupsOfRun(id, classes, items, text);
    IdTextTail(id);
    LeadingOf(RunText(id, classes, items) + " " + text, RunText(id, classes, items), g, text, id);
  }

  lemma LeadingOf(line: string, f: string, g: Groups, text: string, id: string)
    requires line == f + " " + text && f != "" && GroupsAt(line) == g && g.Replace() == f
    requires (if g.id != "" then g.id[1..] else "") == id
    requires Plain(text) && |text| > 0 && IsWordChar(text[0]) && IsWordChar(text[|text| - 1])
    ensures ExtractOf(line) == (id, g.classes, g.attributes, text)
  {
    MatchFirst(line, f, g, text);
    TrimmedTail(line, f, text);
    FirstStep(line, g, text, |f| + 2, id);
    PlainTail(text, |f| + 2, id, g.classes, g.attributes);
  }

  lemma IdTextTail(id: string)
    ensures (if FT.IdText(id) != "" then FT.IdText(id)[1..] else "") == id
  {
  }

  /** The first turn of the loop, with the match and what it leaves given. */
  lemma FirstStep(line: string, g: Groups, rest: string, end: nat, id: string)
    requires NextMatch(line, 0) == Some(FeatureMatch(0, end, g))
    requires g.Replace() != "" && Trim(ReplaceFirst(line, g.Replace(), "")) == rest
    requires (if g.id != "" then g.id[1..] else "") == id
    ensures ExtractOf(line) == ExtractLoop(rest, end, id, g.classes, g.attributes)
  {
  }

  lemma MatchFirst(line: string, f: string, g: Groups, text: string)
    requires line == f + " " + text && |text| > 0 && IsWordChar(text[0])
    requires GroupsAt(line) == g && g.Replace() == f
    ensures NextMatch(line, 0) == Some(FeatureMatch(0, |f| + 2, g))
  {
    assert line[0..] == line;
    assert line[|f|] == ' ' && line[|f| + 1] == text[0];
    assert MatchAt(line, 0) == Some(FeatureMatch(0, |f| + 2, g));
  }

  lemma TrimmedTail(line: string, f: string, text: string)
    requires line == f + " " + text && |text| > 0 && IsWordChar(text[0]) && IsWordChar(text[|text| - 1])
    ensures Trim(ReplaceFirst(line, f, "")) == text
  {
    assert line[..|f|] == f;
    ReplacePrefix(line, f);
    assert line[|f|..] == " " + text;
    SpaceThenWord(text);
  }

  lemma SpaceThenWord(text: string)
    requires |text| > 0 && IsWordChar(text[0]) && IsWordChar(text[|text| - 1])
    ensures Trim(" " + text) == text
  {
    var u := " " + text;
    assert u[1..] == text;
    assert LeadingSpaces(u[1..]) == 0;
    assert LeadingSpaces(u) == 1;
    assert TrimStart(u) == text;
    assert TrailingSpaces(text) == 0;
  }
}
