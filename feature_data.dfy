/**
 * `getFeatureData`: reads the feature run `#id.class1.class2[key=value]...`
 * at the start of a line into an id, a class string and a data object, and
 * returns what is left of the line.
 *
 * The pattern `featuresRe` that recognises one run is imported by
 * getFeatureData.ts from a regexps.ts that is not part of this model. The
 * model assumes the run is matched at the start of the trimmed line and is
 * an optional `#[\w-]+`, then any number of `\.[A-Za-z][\w-]*`, then any
 * number of bracket groups of the attribute pattern, which is the reading the
 * tests of getFeatureData.ts pin down.
 */
module FeatureData {
  import opened JsString
  import opened Types
  import JsNumber

  /** `[\w-]`. */
  predicate IsIdChar(c: char) { IsWordChar(c) || c == '-' }

  /** Length of the longest prefix of `[\w-]` characters. */
  function IdCharRun(s: string): (r: nat)
    ensures r <= |s|
    ensures r == |s| || !IsIdChar(s[r])
  {
    if |s| == 0 || !IsIdChar(s[0]) then 0 else 1 + IdCharRun(s[1..])
  }

  /** Length of the longest prefix of attribute-key characters `[^\]=]`. */
  function KeyRun(s: string): (r: nat)
    ensures r <= |s|
    ensures r == |s| || s[r] == ']' || s[r] == '='
  {
    if |s| == 0 || s[0] == ']' || s[0] == '=' then 0 else 1 + KeyRun(s[1..])
  }

  /** Length of the longest prefix without the character `c`. */
  function RunWithout(s: string, c: char): (r: nat)
    ensures r <= |s|
    ensures r == |s| || s[r] == c
  {
    if |s| == 0 || s[0] == c then 0 else 1 + RunWithout(s[1..], c)
  }

  /** Every character inside a run qualifies (and, by the contracts above, the one after does not). */
  lemma {:induction false} RunsAreMaximal(s: string, c: char)
    ensures forall i :: 0 <= i < IdCharRun(s) ==> IsIdChar(s[i])
    ensures forall i :: 0 <= i < KeyRun(s) ==> s[i] != ']' && s[i] != '='
    ensures forall i :: 0 <= i < RunWithout(s, c) ==> s[i] != c
    decreases |s|
  {
    if |s| > 0 {
      RunsAreMaximal(s[1..], c);
      assert forall i :: 0 < i < |s| ==> s[i] == s[1..][i - 1];
    }
  }

  /** The value part of one attribute: absent, quoted, or bare. */
  datatype AttrValue = NoValue | Quoted(text: string) | Bare(text: string)

  /** One match of the attribute pattern: its length, its key and its value. */
  datatype AttrMatch = AttrMatch(length: nat, key: string, value: AttrValue)

  /**
   * `q(v: [^q]+)q\]` at the start of `t`, for the quote `q`: the length of
   * `v`, or 0 when there is no match.
   */
  function QuotedRun(t: string, q: char): (n: nat)
    ensures n > 0 ==> n + 2 < |t| && t[0] == q && t[n + 1] == q && t[n + 2] == ']'
  {
    if |t| > 0 && t[0] == q then
      var n := RunWithout(t[1..], q);
      if n > 0 && n + 2 < |t| && t[n + 1] == q && t[n + 2] == ']' then n else 0
    else 0
  }

  /**
   * The value alternatives `'(v1)'`, `"(v2)"` and `(v3: [^\]]+)` followed by
   * the closing `]`, at the start of `t`, tried in that order: the length
   * consumed (the `]` included) and the value.
   */
  function ValuePrefix(t: string): (r: Option<(nat, AttrValue)>)
    ensures r.Some? ==> 0 < r.value.0 <= |t| && t[r.value.0 - 1] == ']'
  {
    var n1 := QuotedRun(t, '\'');
    var n2 := QuotedRun(t, '"');
    var b := RunWithout(t, ']');
    if n1 > 0 then Some((n1 + 3, Quoted(t[1..n1 + 1])))
    else if n2 > 0 then Some((n2 + 3, Quoted(t[1..n2 + 1])))
    else if b > 0 && b < |t| then Some((b + 1, Bare(t[..b])))
    else None
  }

  /**
   * The attribute pattern
   * `\[(key: [^\]=]+)(=('(v1: [^']+)'|"(v2: [^"]+)"|(v3: [^\]]+)))?\]`
   * matched at the start of `s`. A greedy run can never be shortened into a
   * match, so the first alternative whose closing `]` is in place is the match.
   */
  function AttrPrefix(s: string): (r: Option<AttrMatch>)
    ensures r.Some? ==> 3 <= r.value.length <= |s| && s[0] == '[' && s[r.value.length - 1] == ']'
    ensures r.Some? ==> 0 < |r.value.key| && 1 + |r.value.key| < r.value.length
    ensures r.Some? ==> r.value.key == s[1..1 + |r.value.key|]
  {
    if |s| == 0 || s[0] != '[' then None
    else
      var k := KeyRun(s[1..]);
      var i := 1 + k;
      if k == 0 || i == |s| then None
      else if s[i] == ']' then Some(AttrMatch(i + 1, s[1..i], NoValue))
      else if s[i] != '=' then None
      else
        match ValuePrefix(s[i + 1..])
        case None => None
        case Some((n, v)) => Some(AttrMatch(i + 1 + n, s[1..i], v))
  }

  /**
   * The value stored for an attribute: `true` without a value, the text of
   * a quoted value, and a number for a bare value that `Number` accepts.
   */
  function AttrDescriptor(v: AttrValue): (d: Descriptor)
    ensures v.NoValue? ==> d == Bool(true)
    ensures v.Quoted? ==> d == Str(v.text)
    ensures v.Bare? ==> (d == Num(v.text) <==> JsNumber.IsNumeric(v.text))
    ensures v.Bare? ==> (d == Str(v.text) <==> !JsNumber.IsNumeric(v.text))
  {
    match v
    case NoValue => Bool(true)
    case Quoted(t) => Str(t)
    case Bare(t) => if JsNumber.IsNumeric(t) then Num(t) else Str(t)
  }

  /** The first position `>= from` where the attribute pattern matches, as `exec` finds it. */
  function NextAttr(s: string, from: nat): (r: Option<(nat, AttrMatch)>)
    requires from <= |s|
    ensures r.Some? ==> from <= r.value.0 && r.value.0 + r.value.1.length <= |s| && r.value.1.length > 0
    decreases |s| - from
  {
    if from == |s| then None
    else
      var m := AttrPrefix(s[from..]);
      if m.Some? then Some((from, m.value)) else NextAttr(s, from + 1)
  }

  /**
   * The `exec` loop from `from` on: each match assigns `d[key] = value`, and
   * the next search starts where the match ended.
   */
  function ReadFrom(s: string, from: nat, d: Data): Data
    requires from <= |s|
    decreases |s| - from
  {
    var next := NextAttr(s, from);
    if next.None? then d
    else
      var m := next.value.1;
      ReadFrom(s, After(next.value), Set(d, m.key, AttrDescriptor(m.value)))
  }

  /** The index just past a match found at `hit.0`. */
  function After(hit: (nat, AttrMatch)): nat {
    hit.0 + hit.1.length
  }

  /** Reading attributes into an object with distinct keys keeps them distinct. */
  lemma ReadFromDistinct(s: string, from: nat, d: Data)
    requires from <= |s| && DistinctKeys(d)
    ensures DistinctKeys(ReadFrom(s, from, d))
  {
    ReadFromIsAssign(s, from, d);
    AssignAttrsDistinct(d, AttrMatches(s, from));
  }

  lemma {:induction false} AssignAttrsDistinct(d: Data, ms: seq<AttrMatch>)
    requires DistinctKeys(d)
    ensures DistinctKeys(AssignAttrs(d, ms))
    decreases |ms|
  {
    if |ms| > 0 {
      SetDistinct(d, ms[0].key, AttrDescriptor(ms[0].value));
      AssignAttrsDistinct(Set(d, ms[0].key, AttrDescriptor(ms[0].value)), ms[1..]);
    }
  }

  /** The data object of an attribute string. */
  function DataOf(attributes: string): Data {
    ReadFrom(attributes, 0, [])
  }

  /** Every match of the global attribute pattern in `s` from `from` on, left to right. */
  function AttrMatches(s: string, from: nat): seq<AttrMatch>
    requires from <= |s|
    decreases |s| - from
  {
    var next := NextAttr(s, from);
    if next.None? then [] else [next.value.1] + AttrMatches(s, next.value.0 + next.value.1.length)
  }

  /** Where the pattern matches at `from`, that match comes first and the search goes on after it. */
  lemma AttrMatchesAt(s: string, from: nat, m: AttrMatch)
    requires from <= |s| && AttrPrefix(s[from..]) == Some(m)
    ensures from + m.length <= |s| && AttrMatches(s, from) == [m] + AttrMatches(s, from + m.length)
  {
    NextAttrAt(s, from, m);
    AttrMatchesNext(s, from, m);
  }

  lemma NextAttrAt(s: string, from: nat, m: AttrMatch)
    requires from <= |s| && AttrPrefix(s[from..]) == Some(m)
    ensures NextAttr(s, from) == Some((from, m))
  {
  }

  lemma AttrMatchesNext(s: string, from: nat, m: AttrMatch)
    requires from <= |s| && NextAttr(s, from) == Some((from, m))
    ensures from + m.length <= |s| && AttrMatches(s, from) == [m] + AttrMatches(s, from + m.length)
  {
  }

  /** `data[key] = value` for each match in turn, starting from `d`. */
  function AssignAttrs(d: Data, ms: seq<AttrMatch>): Data
    decreases |ms|
  {
    if |ms| == 0 then d
    else AssignAttrs(Set(d, ms[0].key, AttrDescriptor(ms[0].value)), ms[1..])
  }

  lemma AssignAttrsStep(d: Data, m: AttrMatch, rest: seq<AttrMatch>)
    ensures AssignAttrs(d, [m] + rest) == AssignAttrs(Set(d, m.key, AttrDescriptor(m.value)), rest)
  {
    assert ([m] + rest)[1..] == rest;
  }

  /** The loop assigns the matches of the pattern in the order `exec` finds them. */
  lemma {:induction false} ReadFromIsAssign(s: string, from: nat, d: Data)
    requires from <= |s|
    ensures ReadFrom(s, from, d) == AssignAttrs(d, AttrMatches(s, from))
    decreases |s| - from
  {
    var next := NextAttr(s, from);
    if next.Some? {
      var (p, m) := next.value;
      ReadFromIsAssign(s, p + m.length, Set(d, m.key, AttrDescriptor(m.value)));
      AssignAttrsStep(d, m, AttrMatches(s, p + m.length));
    }
  }

  /** `#[\w-]+` at the start of `s`, with its `#`, or "". */
  function IdGroup(s: string): (r: string)
    ensures |r| <= |s| && r == s[..|r|]
    ensures r != "" ==> |r| >= 2 && r[0] == '#'
  {
    if |s| >= 2 && s[0] == '#' && IsIdChar(s[1]) then s[..1 + IdCharRun(s[1..])] else ""
  }

  /** `(\.[A-Za-z][\w-]*)*` at the start of `s`. */
  function ClassesGroup(s: string): (r: string)
    ensures |r| <= |s| && r == s[..|r|]
    decreases |s|
  {
    if |s| >= 2 && s[0] == '.' && IsLetter(s[1]) then
      var n := 2 + IdCharRun(s[2..]);
      var rest := ClassesGroup(s[n..]);
      assert s[..n] + rest == s[..n + |rest|];
      s[..n] + rest
    else ""
  }

  /** Consecutive matches of the attribute pattern at the start of `s`. */
  function AttributesGroup(s: string): (r: string)
    ensures |r| <= |s| && r == s[..|r|]
    decreases |s|
  {
    match AttrPrefix(s)
    case None => ""
    case Some(m) =>
      var rest := AttributesGroup(s[m.length..]);
      assert s[..m.length] + rest == s[..m.length + |rest|];
      s[..m.length] + rest
  }

  /** The groups of one match of the feature pattern; `replace` is the whole match. */
  datatype FeatureRun = FeatureRun(id: string, classes: string, attributes: string) {
    function Replace(): string { id + classes + attributes }
  }

  /** The feature pattern matched at the start of `line`. */
  function FeatureRunAt(line: string): (r: FeatureRun)
    ensures |r.Replace()| <= |line| && r.Replace() == line[..|r.Replace()|]
  {
    var id := IdGroup(line);
    var rest1 := line[|id|..];
    var classes := ClassesGroup(rest1);
    var rest2 := rest1[|classes|..];
    var attributes := AttributesGroup(rest2);
    PrefixConcat(line, id, classes, attributes);
    FeatureRun(id, classes, attributes)
  }

  lemma PrefixConcat(line: string, a: string, b: string, c: string)
    requires |a| <= |line| && a == line[..|a|]
    requires |b| <= |line[|a|..]| && b == line[|a|..][..|b|]
    requires |c| <= |line[|a|..][|b|..]| && c == line[|a|..][|b|..][..|c|]
    ensures |a + b + c| <= |line| && a + b + c == line[..|a + b + c|]
  {
    assert line[|a|..][|b|..] == line[|a| + |b|..];
  }

  /** What `getFeatureData` returns. */
  datatype Features = Features(id: string, classes: string, data: Data, line: string)

  /** One round of the extraction loop removes a non-empty match, so the line gets shorter. */
  lemma RemoveShortens(line: string, replace: string)
    requires replace != "" && |replace| <= |line| && replace == line[..|replace|]
    ensures |Trim(ReplaceFirst(line, replace, ""))| < |line|
  {
    ReplacePrefix(line, replace);
  }

  /**
   * The extraction loop: take the match at the start of the line, keep its
   * id (without `#`), classes and attributes when present, remove it and
   * trim; stop at the first match that removes nothing.
   */
  function ExtractLoop(line: string, id: string, classes: string, attributes: string): (string, string, string, string)
    decreases |line|
  {
    var m := FeatureRunAt(line);
    if m.Replace() == "" then (id, classes, attributes, line)
    else
      RemoveShortens(line, m.Replace());
      ExtractLoop(Trim(ReplaceFirst(line, m.Replace(), "")),
                  if m.id != "" then m.id[1..] else id,
                  if m.classes != "" then m.classes else classes,
                  if m.attributes != "" then m.attributes else attributes)
  }

  /** The result `getFeatureData(s)` specifies. */
  function FeatureDataOf(s: string): Features {
    var (id, classes, attributes, line) := ExtractLoop(Trim(s), "", "", "");
    Features(id, classes, if attributes != "" then DataOf(attributes) else [], line)
  }

  /** `getFeatureData` (getFeatureData.ts): the extraction loop, then the attribute loop. */
  method GetFeatureData(input: string) returns (r: Features)
    ensures r == FeatureDataOf(input)
    ensures DistinctKeys(r.data)
  {
    var line := Trim(input);
    var id, classes, attributes := "", "", "";
    while true
      invariant ExtractLoop(line, id, classes, attributes) == ExtractLoop(Trim(input), "", "", "")
      decreases |line|
    {
      var m := FeatureRunAt(line);
      if m.Replace() == "" {
        break;
      }
      if m.id != "" {
        id := m.id[1..];
      }
      if m.classes != "" {
        classes := m.classes;
      }
      if m.attributes != "" {
        attributes := m.attributes;
      }
      RemoveShortens(line, m.Replace());
      line := Trim(ReplaceFirst(line, m.Replace(), ""));
    }
    var data: Data := [];
    if attributes != "" {
      ReadFromDistinct(attributes, 0, []);
      data := ReadAttributes(attributes);
    }
    r := Features(id, classes, data, line);
  }

  /** The attribute loop of `getFeatureData`: `data[key] = value` for each match of the attribute pattern. */
  method ReadAttributes(attributes: string) returns (data: Data)
    ensures data == DataOf(attributes)
  {
    data := [];
    var lastIndex: nat := 0;
    while true
      invariant lastIndex <= |attributes|
      invariant ReadFrom(attributes, lastIndex, data) == DataOf(attributes)
      decreases |attributes| - lastIndex
    {
      var next := NextAttr(attributes, lastIndex);
      ReadStep(attributes, lastIndex, data, next);
      if next.None? {
        break;
      }
      var m := next.value.1;
      data := Set(data, m.key, AttrDescriptor(m.value));
      lastIndex := After(next.value);
    }
  }

  /** One turn of the attribute loop: no match ends it, a match assigns its entry and moves past it. */
  lemma ReadStep(s: string, from: nat, d: Data, next: Option<(nat, AttrMatch)>)
    requires from <= |s| && next == NextAttr(s, from)
    ensures next.None? ==> ReadFrom(s, from, d) == d
    ensures next.Some? ==>
              ReadFrom(s, from, d) == ReadFrom(s, After(next.value), Set(d, next.value.1.key, AttrDescriptor(next.value.1.value)))
  {
  }

  // ---------------------------------------------------------------------------
  // Properties of the extraction

  /** The data object `getFeatureData` returns never repeats a key. */
  lemma FeatureDataDistinct(s: string)
    ensures DistinctKeys(FeatureDataOf(s).data)
  {
    var (id, classes, attributes, line) := ExtractLoop(Trim(s), "", "", "");
    if attributes != "" {
      ReadFromDistinct(attributes, 0, []);
    }
  }

  /** A line that does not start a feature run is returned trimmed, with no id, classes or data. */
  lemma PlainText(s: string)
    requires |Trim(s)| == 0 || (Trim(s)[0] != '#' && Trim(s)[0] != '.' && Trim(s)[0] != '[')
    ensures FeatureDataOf(s) == Features("", "", [], Trim(s))
  {
  }

  /** `#x` yields the id `x` (without `#`) and an empty residual line. */
  lemma IdOnly(x: string)
    requires |x| > 0 && forall i :: 0 <= i < |x| ==> IsIdChar(x[i])
    ensures FeatureDataOf("#" + x) == Features(x, "", [], "")
  {
    IdOnlyLine(x, "#" + x);
  }

  lemma IdOnlyLine(x: string, s: string)
    requires |x| > 0 && forall i :: 0 <= i < |x| ==> IsIdChar(x[i])
    requires s == "#" + x
    ensures FeatureDataOf(s) == Features(x, "", [], "")
  {
    TrimFixed(s);
    assert s[1..] == x;
    IdCharRunOf(x);
    assert IdGroup(s) == s;
    assert FeatureRunAt(s) == FeatureRun(s, "", "") by {
      assert s[|s|..] == "";
    }
    WholeRun(s, FeatureRun(s, "", ""));
  }

  /** The run `.c` keeps its leading dot in the classes string. */
  lemma ClassOnly(c: string)
    requires |c| > 0 && IsLetter(c[0]) && forall i :: 0 <= i < |c| ==> IsIdChar(c[i])
    ensures FeatureDataOf("." + c) == Features("", "." + c, [], "")
  {
    ClassOnlyLine(c, "." + c);
  }

  lemma ClassOnlyLine(c: string, s: string)
    requires |c| > 0 && IsLetter(c[0]) && forall i :: 0 <= i < |c| ==> IsIdChar(c[i])
    requires s == "." + c
    ensures FeatureDataOf(s) == Features("", s, [], "")
  {
    TrimFixed(s);
    ClassGroupWhole(c, s);
    assert FeatureRunAt(s) == FeatureRun("", s, "");
    WholeRun(s, FeatureRun("", s, ""));
  }

  /** A trimmed string that is one feature run in full is read as that run alone. */
  lemma WholeRun(s: string, m: FeatureRun)
    requires |s| > 0 && Trim(s) == s && FeatureRunAt(s) == m && m.Replace() == s
    ensures FeatureDataOf(s) == Features(if m.id != "" then m.id[1..] else "", m.classes,
                                         if m.attributes != "" then DataOf(m.attributes) else [], "")
  {
    var id := if m.id != "" then m.id[1..] else "";
    ReplacePrefix(s, s);
    assert s[|s|..] == "";
    assert Trim("") == "";
    assert ExtractLoop(s, "", "", "") == ExtractLoop("", id, m.classes, m.attributes);
    assert FeatureRunAt("") == FeatureRun("", "", "");
    assert ExtractLoop("", id, m.classes, m.attributes) == (id, m.classes, m.attributes, "");
  }

  /** The class alternative takes all of `.c`. */
  lemma ClassGroupWhole(c: string, s: string)
    requires |c| > 0 && IsLetter(c[0]) && forall i :: 0 <= i < |c| ==> IsIdChar(c[i])
    requires s == "." + c
    ensures ClassesGroup(s) == s
  {
    assert s[2..] == c[1..];
    IdCharRunOf(c[1..]);
    assert s[|s|..] == "";
  }

  /** A match at position 0 is the first one `exec` finds. */
  lemma NextAttrAtStart(a: string, m: AttrMatch)
    requires AttrPrefix(a) == Some(m)
    ensures NextAttr(a, 0) == Some((0, m))
  {
    assert a[0..] == a;
  }

  lemma DataOfSingle(a: string, m: AttrMatch)
    requires AttrPrefix(a) == Some(m) && m.length == |a|
    ensures DataOf(a) == [(m.key, AttrDescriptor(m.value))]
  {
    NextAttrAtStart(a, m);
    var d := Set([], m.key, AttrDescriptor(m.value));
    assert d == [(m.key, AttrDescriptor(m.value))];
    assert ReadFrom(a, |a|, d) == d;
    assert ReadFrom(a, 0, []) == ReadFrom(a, |a|, d);
  }

  lemma FeatureRunOfAttr(a: string, m: AttrMatch)
    requires AttrPrefix(a) == Some(m) && m.length == |a|
    ensures FeatureRunAt(a) == FeatureRun("", "", a)
  {
    assert a[0..] == a;
    assert AttributesGroup(a) == a by {
      assert a[|a|..] == "";
      assert AttributesGroup("") == "";
    }
  }

  /** The attribute string `a` read on its own as the whole feature run. */
  lemma SingleAttribute(a: string, m: AttrMatch)
    requires AttrPrefix(a) == Some(m) && m.length == |a|
    ensures FeatureDataOf(a) == Features("", "", [(m.key, AttrDescriptor(m.value))], "")
  {
    TrimFixed(a);
    FeatureRunOfAttr(a, m);
    WholeRun(a, FeatureRun("", "", a));
    DataOfSingle(a, m);
  }

  lemma {:induction false} IdCharRunOf(x: string)
    requires forall i :: 0 <= i < |x| ==> IsIdChar(x[i])
    ensures IdCharRun(x) == |x|
    decreases |x|
  {
    if |x| > 0 {
      assert forall i :: 0 <= i < |x| - 1 ==> x[1..][i] == x[i + 1];
      IdCharRunOf(x[1..]);
    }
  }

  predicate IsKey(k: string) {
    |k| > 0 && forall i :: 0 <= i < |k| ==> k[i] != ']' && k[i] != '='
  }

  lemma {:induction false} KeyRunOf(k: string, rest: string)
    requires IsKey(k) && |rest| > 0 && (rest[0] == ']' || rest[0] == '=')
    ensures KeyRun(k + rest) == |k|
  {
    if |k| > 1 {
      assert (k + rest)[1..] == k[1..] + rest;
      KeyRunOf(k[1..], rest);
    }
  }

  lemma {:induction false} RunWithoutOf(v: string, c: char, rest: string)
    requires c !in v && |rest| > 0 && rest[0] == c
    ensures RunWithout(v + rest, c) == |v|
  {
    if |v| > 0 {
      assert (v + rest)[1..] == v[1..] + rest;
      RunWithoutOf(v[1..], c, rest);
    }
  }

  /** `[k]` without `=` stores `true`; keys may hold any character but `]` and `=`, emoji included. */
  lemma FlagAttribute(k: string)
    requires IsKey(k)
    ensures FeatureDataOf("[" + k + "]") == Features("", "", [(k, Bool(true))], "")
  {
    var a := "[" + k + "]";
    assert a[1..] == k + "]";
    KeyRunOf(k, "]");
    assert a[1..1 + |k|] == k;
    SingleAttribute(a, AttrMatch(|a|, k, NoValue));
  }

  /** `[k=` followed by a value alternative that closes the bracket. */
  lemma AttrPrefixWithValue(k: string, t: string, n: nat, v: AttrValue)
    requires IsKey(k) && ValuePrefix(t) == Some((n, v))
    ensures AttrPrefix("[" + k + "=" + t) == Some(AttrMatch(|k| + 2 + n, k, v))
  {
    var a := "[" + k + "=" + t;
    assert a[1..] == k + ("=" + t);
    KeyRunOf(k, "=" + t);
    assert a[1..1 + |k|] == k;
    assert a[1 + |k|] == '=';
    assert a[|k| + 2..] == t;
    AttrPrefixAt(a, k, n, v);
  }

  /** An entry `[k=w` whose value alternative ends with `w`, with any text after it. */
  lemma EntryBefore(s: string, e: string, k: string, w: string, rest: string, n: nat, v: AttrValue)
    requires IsKey(k) && ValuePrefix(w + rest) == Some((n, v)) && n == |w|
    requires e == "[" + k + "=" + w && s == e + rest
    ensures AttrPrefix(s) == Some(AttrMatch(|e|, k, v))
  {
    ConcatAssoc("[" + k + "=", w, rest);
    EntryMatch(s, k, w + rest, n, v);
  }

  /** `s` is `[k=` and a value alternative that closes the bracket. */
  lemma EntryMatch(s: string, k: string, t: string, n: nat, v: AttrValue)
    requires IsKey(k) && ValuePrefix(t) == Some((n, v)) && s == "[" + k + "=" + t
    ensures AttrPrefix(s) == Some(AttrMatch(|k| + 2 + n, k, v))
  {
    AttrPrefixWithValue(k, t, n, v);
  }

  /** `s` is `[k]` followed by anything: a flag. */
  lemma FlagMatch(s: string, k: string, rest: string)
    requires IsKey(k) && s == "[" + k + "]" + rest
    ensures AttrPrefix(s) == Some(AttrMatch(|k| + 2, k, NoValue))
  {
    assert s[1..] == k + ("]" + rest);
    KeyRunOf(k, "]" + rest);
    assert s[1..1 + |k|] == k;
    FlagAt(s, k);
  }

  lemma FlagAt(s: string, k: string)
    requires 0 < |k| && 1 + |k| < |s| && s[0] == '[' && KeyRun(s[1..]) == |k|
    requires s[1..1 + |k|] == k && s[1 + |k|] == ']'
    ensures AttrPrefix(s) == Some(AttrMatch(|k| + 2, k, NoValue))
  {
  }

  /** The match read from a text whose key run ends at `=` and whose value alternative follows. */
  lemma AttrPrefixAt(s: string, k: string, n: nat, v: AttrValue)
    requires 0 < |k| && 1 + |k| < |s| && s[0] == '[' && KeyRun(s[1..]) == |k|
    requires s[1..1 + |k|] == k && s[1 + |k|] == '=' && ValuePrefix(s[|k| + 2..]) == Some((n, v))
    ensures AttrPrefix(s) == Some(AttrMatch(|k| + 2 + n, k, v))
  {
  }

  lemma QuotedValue(q: char, v: string)
    requires (q == '\'' || q == '"') && |v| > 0 && q !in v
    ensures ValuePrefix([q] + v + [q] + "]") == Some((|v| + 3, Quoted(v)))
  {
    var t := [q] + v + [q] + "]";
    assert t[1..] == v + ([q] + "]");
    RunWithoutOf(v, q, [q] + "]");
    assert t[1..|v| + 1] == v;
    if q == '"' {
      assert QuotedRun(t, '\'') == 0;
    }
  }

  lemma BareValue(v: string)
    requires |v| > 0 && ']' !in v && v[0] != '\'' && v[0] != '"'
    ensures ValuePrefix(v + "]") == Some((|v| + 1, Bare(v)))
  {
    var t := v + "]";
    RunWithoutOf(v, ']', "]");
    assert t[..|v|] == v;
  }

  /**
   * `[k='v']` and `[k="v"]` store the text `v` as a string even when it
   * reads as a number; the value may hold spaces, brackets, newlines, tabs and emoji.
   */
  lemma QuotedAttribute(k: string, q: char, v: string)
    requires IsKey(k) && (q == '\'' || q == '"')
    requires |v| > 0 && q !in v
    ensures FeatureDataOf("[" + k + "=" + [q] + v + [q] + "]") == Features("", "", [(k, Str(v))], "")
  {
    var t := [q] + v + [q] + "]";
    QuotedText(k, q, v);
    QuotedLine(k, q, v, t, "[" + k + "=" + t);
  }

  lemma QuotedLine(k: string, q: char, v: string, t: string, a: string)
    requires IsKey(k) && (q == '\'' || q == '"')
    requires |v| > 0 && q !in v
    requires t == [q] + v + [q] + "]" && a == "[" + k + "=" + t
    ensures FeatureDataOf(a) == Features("", "", [(k, Str(v))], "")
  {
    QuotedValue(q, v);
    SingleEntry(a, k, t, |v| + 3, Quoted(v));
  }

  /** `[k=` followed by a value alternative that closes the bracket and ends the string. */
  lemma SingleEntry(a: string, k: string, t: string, n: nat, v: AttrValue)
    requires IsKey(k) && ValuePrefix(t) == Some((n, v)) && n == |t| && a == "[" + k + "=" + t
    ensures FeatureDataOf(a) == Features("", "", [(k, AttrDescriptor(v))], "")
  {
    EntryMatch(a, k, t, n, v);
    SingleAttribute(a, AttrMatch(|a|, k, v));
  }

  lemma QuotedText(k: string, q: char, v: string)
    ensures "[" + k + "=" + ([q] + v + [q] + "]") == "[" + k + "=" + [q] + v + [q] + "]"
  {
  }

  /** `[k=v]` with a bare `v` stores a number exactly when `Number(v)` is not NaN, and the text otherwise. */
  lemma BareAttribute(k: string, v: string)
    requires IsKey(k) && |v| > 0 && ']' !in v
    requires v[0] != '\'' && v[0] != '"'
    ensures FeatureDataOf("[" + k + "=" + v + "]") ==
      Features("", "", [(k, if JsNumber.IsNumeric(v) then Num(v) else Str(v))], "")
  {
    BareValue(v);
    var t := v + "]";
    var a := "[" + k + "=" + t;
    assert a == "[" + k + "=" + v + "]";
    SingleEntry(a, k, t, |v| + 1, Bare(v));
  }

  /** A later attribute with the same key overwrites the earlier value; other keys keep theirs. */
  lemma {:induction false} LaterAttributeWins(d: Data, ms: seq<AttrMatch>, k: string)
    ensures Get(AssignAttrs(d, ms), k) ==
      if exists i :: 0 <= i < |ms| && ms[i].key == k
      then Some(AttrDescriptor(ms[LastWithKey(ms, k)].value))
      else Get(d, k)
    decreases |ms|
  {
    if |ms| > 0 {
      LaterAttributeWins(Set(d, ms[0].key, AttrDescriptor(ms[0].value)), ms[1..], k);
      if ms[0].key != k { GetSet(d, ms[0].key, AttrDescriptor(ms[0].value), k); }
      var tail := ms[1..];
      if exists i :: 0 <= i < |tail| && tail[i].key == k {
        var i :| 0 <= i < |tail| && tail[i].key == k;
        assert ms[i + 1].key == k;
        assert LastWithKey(ms, k) == 1 + LastWithKey(tail, k);
      } else if ms[0].key == k {
        assert LastWithKey(ms, k) == 0;
      } else {
        assert forall i :: 0 <= i < |ms| ==> ms[i].key != k by {
          forall i | 0 <= i < |ms| ensures ms[i].key != k {
            if i > 0 { assert tail[i - 1] == ms[i]; }
          }
        }
      }
    }
  }

  /** In the data object of an attribute string, each key holds the value of its last attribute. */
  lemma DataOfLastWins(attributes: string, k: string)
    ensures var ms := AttrMatches(attributes, 0);
      Get(DataOf(attributes), k) ==
        if exists i :: 0 <= i < |ms| && ms[i].key == k
        then Some(AttrDescriptor(ms[LastWithKey(ms, k)].value))
        else None
  {
    ReadFromIsAssign(attributes, 0, []);
    LaterAttributeWins([], AttrMatches(attributes, 0), k);
  }

  /** Index of the last match with key `k`. */
  function LastWithKey(ms: seq<AttrMatch>, k: string): (r: nat)
    requires exists i :: 0 <= i < |ms| && ms[i].key == k
    ensures r < |ms| && ms[r].key == k
    ensures forall i :: r < i < |ms| ==> ms[i].key != k
  {
    if ms[|ms| - 1].key == k then |ms| - 1
    else
      var j :| 0 <= j < |ms| && ms[j].key == k;
      assert ms[..|ms| - 1][j] == ms[j];
      LastWithKey(ms[..|ms| - 1], k)
  }
}
