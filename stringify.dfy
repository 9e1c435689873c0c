/**
 * `stringify`: a graph written back as graph-selector text. Each node gives
 * one line (its escaped label, then its `#id`, `.classes` and `[attributes]`),
 * followed by one indented line per edge leaving it towards an existing node.
 */
module Stringify {
  import opened JsString
  import opened Types
  import JsNumber
  import FD = FeatureData

  // ---------------------------------------------------------------------------
  // escapeLabel

  /** The characters `escapeLabel` puts a backslash before. */
  predicate IsLabelSpecial(c: char) {
    c == ':' || c == '[' || c == ']' || c == '(' || c == ')'
  }

  /** `.replace(/[:\[\]\(\)]/g, (c) => "\\" + c)`. */
  function EscapeSpecials(s: string): string {
    if |s| == 0 then ""
    else (if IsLabelSpecial(s[0]) then ['\\', s[0]] else [s[0]]) + EscapeSpecials(s[1..])
  }

  /** `.replace(/\n/g, "\\n")`. */
  function EscapeNewlines(s: string): string {
    if |s| == 0 then ""
    else (if s[0] == '\n' then "\\n" else [s[0]]) + EscapeNewlines(s[1..])
  }

  /** `escapeLabel`: the two replacement passes in order. */
  function EscapeLabel(s: string): string {
    EscapeNewlines(EscapeSpecials(s))
  }

  /** What one character of a label becomes. */
  function EscapeChar(c: char): (r: string)
    ensures |r| >= 1
  {
    if IsLabelSpecial(c) then ['\\', c] else if c == '\n' then "\\n" else [c]
  }

  /** The label escaped character by character. */
  function EscapeEach(s: string): string {
    if |s| == 0 then "" else EscapeChar(s[0]) + EscapeEach(s[1..])
  }

  lemma {:induction false} EscapeNewlinesConcat(a: string, b: string)
    ensures EscapeNewlines(a + b) == EscapeNewlines(a) + EscapeNewlines(b)
    decreases |a|
  {
    if |a| > 0 {
      var h := if a[0] == '\n' then "\\n" else [a[0]];
      assert (a + b)[0] == a[0];
      assert (a + b)[1..] == a[1..] + b;
      EscapeNewlinesConcat(a[1..], b);
      ConcatAssoc(h, EscapeNewlines(a[1..]), EscapeNewlines(b));
    } else {
      assert a + b == b;
    }
  }

  /** The second pass never sees a newline the first one made, so the passes act per character. */
  lemma {:induction false} EscapeLabelEach(s: string)
    ensures EscapeLabel(s) == EscapeEach(s)
    decreases |s|
  {
    if |s| > 0 {
      var head := if IsLabelSpecial(s[0]) then ['\\', s[0]] else [s[0]];
      EscapeNewlinesConcat(head, EscapeSpecials(s[1..]));
      EscapeLabelEach(s[1..]);
      if IsLabelSpecial(s[0]) {
        assert EscapeNewlines(head) == ['\\'] + EscapeNewlines([s[0]]);
      }
    }
  }

  /**
   * Reads an escaped label back: a backslash before one of `: [ ] ( )`
   * stands for that character, a backslash before `n` for a newline.
   */
  function UnescapeLabel(s: string): string {
    if |s| == 0 then ""
    else if |s| >= 2 && s[0] == '\\' && IsLabelSpecial(s[1]) then [s[1]] + UnescapeLabel(s[2..])
    else if |s| >= 2 && s[0] == '\\' && s[1] == 'n' then "\n" + UnescapeLabel(s[2..])
    else [s[0]] + UnescapeLabel(s[1..])
  }

  lemma {:induction false} EscapeEachPlain(s: string)
    ensures '\n' !in EscapeEach(s)
    ensures |EscapeEach(s)| >= |s|
    decreases |s|
  {
    if |s| > 0 {
      EscapeEachPlain(s[1..]);
    }
  }

  lemma {:induction false} EscapeEachMarked(s: string)
    ensures forall i :: 0 <= i < |EscapeEach(s)| && IsLabelSpecial(EscapeEach(s)[i]) ==>
              0 < i && EscapeEach(s)[i - 1] == '\\'
    decreases |s|
  {
    if |s| > 0 {
      EscapeEachMarked(s[1..]);
      var e := EscapeEach(s);
      var rest := EscapeEach(s[1..]);
      var h := EscapeChar(s[0]);
      assert e == h + rest;
      assert forall i :: |h| <= i < |e| ==> e[i] == rest[i - |h|];
    }
  }

  lemma {:induction false} EscapeEachRoundTrip(s: string)
    requires '\\' !in s
    ensures UnescapeLabel(EscapeEach(s)) == s
    decreases |s|
  {
    if |s| > 0 {
      assert s == [s[0]] + s[1..];
      EscapeEachRoundTrip(s[1..]);
      var e := EscapeEach(s);
      var rest := EscapeEach(s[1..]);
      if IsLabelSpecial(s[0]) || s[0] == '\n' {
        assert e[2..] == rest;
      } else {
        assert e[1..] == rest;
      }
    }
  }

  /**
   * An escaped label holds no newline, every `: [ ] ( )` in it follows a
   * backslash, and a label without backslashes is read back exactly.
   */
  lemma EscapeLabelSpec(s: string)
    ensures '\n' !in EscapeLabel(s)
    ensures |EscapeLabel(s)| >= |s|
    ensures forall i :: 0 <= i < |EscapeLabel(s)| && IsLabelSpecial(EscapeLabel(s)[i]) ==>
              0 < i && EscapeLabel(s)[i - 1] == '\\'
    ensures '\\' !in s ==> UnescapeLabel(EscapeLabel(s)) == s
  {
    EscapeLabelEach(s);
    EscapeEachPlain(s);
    EscapeEachMarked(s);
    if '\\' !in s {
      EscapeEachRoundTrip(s);
    }
  }

  /** Backslashes are not escaped: a backslash followed by `n` and a newline escape alike. */
  lemma BackslashLabelsCollide()
    ensures EscapeLabel("\\n") == EscapeLabel("\n") == "\\n"
  {
    EscapeLabelEach("\\n");
    EscapeLabelEach("\n");
  }

  // ---------------------------------------------------------------------------
  // stringifyData

  /** `value.replace(/"/g, '\\"')`. */
  function EscapeQuotes(s: string): string {
    if |s| == 0 then ""
    else (if s[0] == '"' then "\\\"" else [s[0]]) + EscapeQuotes(s[1..])
  }

  lemma {:induction false} EscapeQuotesPlain(s: string)
    requires '"' !in s
    ensures EscapeQuotes(s) == s
    decreases |s|
  {
    if |s| > 0 {
      EscapeQuotesPlain(s[1..]);
      assert s == [s[0]] + s[1..];
    }
  }

  /** One entry: `[k]` for a boolean, `[k=v]` for a number, `[k="v"]` for a string. */
  function EntryText(key: string, value: Descriptor): string {
    match value
    case Bool(_) => "[" + key + "]"
    case Num(l) => "[" + key + "=" + (l + "]")
    case Str(s) => "[" + key + "=" + ("\"" + EscapeQuotes(s) + "\"]")
  }

  /** `stringifyData`: the text of each entry, in order, joined with nothing between them. */
  function StringifyData(d: Data): string {
    Concat(EntryTexts(d))
  }

  /** An entry the attribute reader gives back unchanged. */
  predicate PrintableEntry(key: string, value: Descriptor) {
    FD.IsKey(key) &&
    match value
    case Bool(b) => b
    case Str(s) => |s| > 0 && '"' !in s
    case Num(l) => |l| > 0 && ']' !in l && l[0] != '\'' && l[0] != '"' && JsNumber.IsNumeric(l)
  }

  /** Every entry is printable. */
  predicate AllPrintable(d: Data) {
    |d| == 0 || (PrintableEntry(d[0].0, d[0].1) && AllPrintable(d[1..]))
  }

  /** Data whose attribute text reads back as the same data: distinct keys, every entry printable. */
  predicate Printable(d: Data) {
    DistinctKeys(d) && AllPrintable(d)
  }

  /** The attribute value the reader sees in an entry's text. */
  function EntryValue(value: Descriptor): FD.AttrValue {
    match value
    case Bool(_) => FD.NoValue
    case Num(l) => FD.Bare(l)
    case Str(s) => FD.Quoted(s)
  }

  lemma QuotedValueBefore(v: string, rest: string)
    requires |v| > 0 && '"' !in v
    ensures FD.ValuePrefix("\"" + v + "\"]" + rest) == Some((|v| + 3, FD.Quoted(v)))
  {
    var t := "\"" + v + "\"]" + rest;
    assert t[1..] == v + ("\"]" + rest);
    FD.RunWithoutOf(v, '"', "\"]" + rest);
    assert t[1..|v| + 1] == v;
    assert t[|v| + 1] == '"' && t[|v| + 2] == ']';
  }

  lemma BareValueBefore(v: string, rest: string)
    requires |v| > 0 && ']' !in v && v[0] != '\'' && v[0] != '"'
    ensures FD.ValuePrefix(v + "]" + rest) == Some((|v| + 1, FD.Bare(v)))
  {
    var t := v + "]" + rest;
    assert t == v + ("]" + rest);
    FD.RunWithoutOf(v, ']', "]" + rest);
    assert t[..|v|] == v;
  }

  lemma FlagBefore(k: string, rest: string)
    requires FD.IsKey(k)
    ensures FD.AttrPrefix("[" + k + "]" + rest) == Some(FD.AttrMatch(|k| + 2, k, FD.NoValue))
  {
    FD.FlagMatch("[" + k + "]" + rest, k, rest);
  }

  lemma FlagEntryPrefix(key: string, b: bool, rest: string)
    requires FD.IsKey(key)
    ensures FD.AttrPrefix(EntryText(key, Bool(b)) + rest) == Some(FD.AttrMatch(|EntryText(key, Bool(b))|, key, FD.NoValue))
  {
    FD.FlagMatch(EntryText(key, Bool(b)) + rest, key, rest);
  }

  lemma NumEntryPrefix(key: string, l: string, rest: string)
    requires FD.IsKey(key) && |l| > 0 && ']' !in l && l[0] != '\'' && l[0] != '"'
    ensures FD.AttrPrefix(EntryText(key, Num(l)) + rest) == Some(FD.AttrMatch(|EntryText(key, Num(l))|, key, FD.Bare(l)))
  {
    BareValueBefore(l, rest);
    FD.EntryBefore(EntryText(key, Num(l)) + rest, EntryText(key, Num(l)), key, l + "]", rest, |l| + 1, FD.Bare(l));
  }

  lemma StrEntryPrefix(key: string, v: string, rest: string, e: string)
    requires FD.IsKey(key) && |v| > 0 && '"' !in v
    requires e == "[" + key + "=" + ("\"" + v + "\"]")
    ensures FD.AttrPrefix(e + rest) == Some(FD.AttrMatch(|e|, key, FD.Quoted(v)))
  {
    QuotedValueBefore(v, rest);
    FD.EntryBefore(e + rest, e, key, "\"" + v + "\"]", rest, |v| + 3, FD.Quoted(v));
  }

  /** The value read from a printable entry is the value written. */
  lemma EntryValueRead(value: Descriptor)
    requires match value
             case Bool(b) => b
             case Str(s) => true
             case Num(l) => JsNumber.IsNumeric(l)
    ensures FD.AttrDescriptor(EntryValue(value)) == value
  {
  }

  lemma FlagEntryOf(key: string, value: Descriptor, rest: string)
    requires PrintableEntry(key, value) && value.Bool?
    ensures FD.AttrPrefix(EntryText(key, value) + rest)
            == Some(FD.AttrMatch(|EntryText(key, value)|, key, EntryValue(value)))
  {
    FlagEntryPrefix(key, value.b, rest);
  }
  lemma NumEntryOf(key: string, value: Descriptor, rest: string)
    requires PrintableEntry(key, value) && value.Num?
    ensures FD.AttrPrefix(EntryText(key, value) + rest)
            == Some(FD.AttrMatch(|EntryText(key, value)|, key, EntryValue(value)))
  {
    NumEntryPrefix(key, value.literal, rest);
  }
  lemma StrEntryOf(key: string, value: Descriptor, rest: string)
    requires PrintableEntry(key, value) && value.Str?
    ensures FD.AttrPrefix(EntryText(key, value) + rest)
            == Some(FD.AttrMatch(|EntryText(key, value)|, key, EntryValue(value)))
  {
    EscapeQuotesPlain(value.s);
    StrEntryPrefix(key, value.s, rest, EntryText(key, value));
  }
  lemma EntryPrefix(key: string, value: Descriptor, rest: string)
    requires PrintableEntry(key, value)
    ensures FD.AttrPrefix(EntryText(key, value) + rest)
            == Some(FD.AttrMatch(|EntryText(key, value)|, key, EntryValue(value)))
  {
    if value.Bool? {
      FlagEntryOf(key, value, rest);
    } else if value.Num? {
      NumEntryOf(key, value, rest);
    } else {
      StrEntryOf(key, value, rest);
    }
  }

  /** No entry of `d` has a key of `acc`. */
  predicate FreshKeys(acc: Data, d: Data) {
    forall j :: 0 <= j < |d| ==> !HasKey(acc, d[j].0)
  }

  function Concat(ps: seq<string>): string {
    if |ps| == 0 then "" else ps[0] + Concat(ps[1..])
  }

  /** The text of each entry. */
  function EntryTexts(d: Data): (r: seq<string>)
    ensures |r| == |d|
  {
    seq(|d|, i requires 0 <= i < |d| => EntryText(d[i].0, d[i].1))
  }

  /** The match the attribute pattern makes on each entry. */
  function EntryMatches(d: Data): (r: seq<FD.AttrMatch>)
    ensures |r| == |d|
  {
    seq(|d|, i requires 0 <= i < |d| => FD.AttrMatch(|EntryText(d[i].0, d[i].1)|, d[i].0, EntryValue(d[i].1)))
  }

  /** Each piece, with the pieces after it, starts with a full attribute match, the one in `ms`. */
  predicate PiecesRead(ps: seq<string>, ms: seq<FD.AttrMatch>)
    decreases |ps|
  {
    |ps| == |ms|
    && (|ps| > 0 ==> FD.AttrPrefix(Concat(ps)) == Some(ms[0]) && ms[0].length == |ps[0]| && PiecesRead(ps[1..], ms[1..]))
  }

  /** The pieces read one by one, stated position by position. */
  lemma {:induction false} PiecesReadAll(ps: seq<string>, ms: seq<FD.AttrMatch>)
    requires |ps| == |ms|
    requires forall i :: 0 <= i < |ps| ==> FD.AttrPrefix(Concat(ps[i..])) == Some(ms[i]) && ms[i].length == |ps[i]|
    ensures PiecesRead(ps, ms)
    decreases |ps|
  {
    if |ps| > 0 {
      assert ps[0..] == ps;
      forall i | 0 <= i < |ps[1..]|
        ensures FD.AttrPrefix(Concat(ps[1..][i..])) == Some(ms[1..][i]) && ms[1..][i].length == |ps[1..][i]|
      {
        assert ps[1..][i..] == ps[i + 1..];
      }
      PiecesReadAll(ps[1..], ms[1..]);
    }
  }

  /**
   * When the text from `from` on is a run of pieces that the attribute
   * pattern matches one after the other, the `exec` loop assigns those matches.
   */
  lemma ReadPieces(s: string, from: nat, ps: seq<string>, ms: seq<FD.AttrMatch>, acc: Data)
    requires from <= |s| && s[from..] == Concat(ps) && PiecesRead(ps, ms)
    ensures FD.ReadFrom(s, from, acc) == FD.AssignAttrs(acc, ms)
  {
    FD.ReadFromIsAssign(s, from, acc);
    MatchesOfPieces(s, from, ps, ms);
  }

  /** The matches `exec` finds in a run of pieces are the pieces' matches. */
  lemma {:induction false} MatchesOfPieces(s: string, from: nat, ps: seq<string>, ms: seq<FD.AttrMatch>)
    requires from <= |s| && s[from..] == Concat(ps) && PiecesRead(ps, ms)
    ensures FD.AttrMatches(s, from) == ms
    decreases |ps|
  {
    if |ps| > 0 {
      assert FD.AttrPrefix(s[from..]) == Some(ms[0]) && ms[0].length == |ps[0]|;
      var n := from + ms[0].length;
      assert s[n..] == Concat(ps[1..]) by {
        assert s[from..] == ps[0] + Concat(ps[1..]);
      }
      MatchesOfPieces(s, n, ps[1..], ms[1..]);
      MatchesCons(s, from, ms[0], n, ms[1..]);
      assert ms == [ms[0]] + ms[1..];
    } else {
      assert from == |s|;
      assert FD.NextAttr(s, from).None?;
    }
  }

  /** The matches from `from` on: the one at `from`, then the ones after it. */
  lemma MatchesCons(s: string, from: nat, m: FD.AttrMatch, n: nat, rest: seq<FD.AttrMatch>)
    requires from <= |s| && FD.AttrPrefix(s[from..]) == Some(m) && n == from + m.length
    requires n <= |s| && FD.AttrMatches(s, n) == rest
    ensures FD.AttrMatches(s, from) == [m] + rest
  {
    FD.AttrMatchesAt(s, from, m);
    SeqCons(FD.AttrMatches(s, from), m, FD.AttrMatches(s, n), rest);
  }

  lemma SeqCons<T>(a: seq<T>, x: T, b: seq<T>, c: seq<T>)
    requires a == [x] + b && b == c
    ensures a == [x] + c
  {
  }

  lemma {:induction false} AllPrintableAt(d: Data, i: nat)
    requires AllPrintable(d) && i < |d|
    ensures PrintableEntry(d[i].0, d[i].1)
  {
    if i > 0 {
      AllPrintableAt(d[1..], i - 1);
    }
  }

  /** The matches name the entries of `d`, key by key and value by value, in order. */
  predicate MatchesEntries(ms: seq<FD.AttrMatch>, d: Data) {
    |ms| == |d| && forall i :: 0 <= i < |d| ==> ms[i].key == d[i].0 && FD.AttrDescriptor(ms[i].value) == d[i].1
  }

  /** Assigning matches that name fresh, distinct keys onto an object appends the entries they name. */
  lemma {:induction false} AssignEntries(acc: Data, ms: seq<FD.AttrMatch>, d: Data)
    requires DistinctKeys(d) && FreshKeys(acc, d) && MatchesEntries(ms, d)
    ensures FD.AssignAttrs(acc, ms) == acc + d
    decreases |d|
  {
    if |d| > 0 {
      AssignFirst(acc, ms, d);
      EntriesTail(ms, d);
      FreshKeysTail(acc, d);
      AssignEntries(acc + [d[0]], ms[1..], d[1..]);
      assert d == [d[0]] + d[1..];
      ConcatAssoc(acc, [d[0]], d[1..]);
    }
  }

  /** The matches made on the entry texts name the entries. */
  lemma EntryMatchesName(d: Data)
    requires AllPrintable(d)
    ensures MatchesEntries(EntryMatches(d), d)
  {
    forall i | 0 <= i < |d|
      ensures FD.AttrDescriptor(EntryMatches(d)[i].value) == d[i].1
    {
      AllPrintableAt(d, i);
      EntryValueRead(d[i].1);
    }
  }

  lemma AssignFirst(acc: Data, ms: seq<FD.AttrMatch>, d: Data)
    requires |d| > 0 && MatchesEntries(ms, d) && !HasKey(acc, d[0].0)
    ensures FD.AssignAttrs(acc, ms) == FD.AssignAttrs(acc + [d[0]], ms[1..])
  {
    KeyIndexFirst(acc, d[0].0);
    assert Set(acc, ms[0].key, FD.AttrDescriptor(ms[0].value)) == acc + [d[0]];
  }

  lemma EntriesTail(ms: seq<FD.AttrMatch>, d: Data)
    requires |d| > 0 && DistinctKeys(d) && MatchesEntries(ms, d)
    ensures DistinctKeys(d[1..]) && MatchesEntries(ms[1..], d[1..])
  {
    assert forall i :: 0 <= i < |d| - 1 ==> d[1..][i] == d[i + 1] && ms[1..][i] == ms[i + 1];
  }

  lemma FreshKeysTail(acc: Data, d: Data)
    requires |d| > 0 && DistinctKeys(d) && FreshKeys(acc, d)
    ensures FreshKeys(acc + [d[0]], d[1..])
  {
    forall j | 0 <= j < |d[1..]|
      ensures !HasKey(acc + [d[0]], d[1..][j].0)
    {
      assert d[1..][j] == d[j + 1];
    }
  }

  /** Each entry text is matched in full by the attribute pattern, whatever entries follow it. */
  lemma EntriesMatch(d: Data)
    requires AllPrintable(d)
    ensures PiecesRead(EntryTexts(d), EntryMatches(d))
  {
    var ps := EntryTexts(d);
    var ms := EntryMatches(d);
    forall i | 0 <= i < |ps|
      ensures FD.AttrPrefix(Concat(ps[i..])) == Some(ms[i]) && ms[i].length == |ps[i]|
    {
      assert ps[i..][0] == ps[i] && ps[i..][1..] == ps[i + 1..];
      AllPrintableAt(d, i);
      EntryPrefix(d[i].0, d[i].1, Concat(ps[i + 1..]));
    }
    PiecesReadAll(ps, ms);
  }

  /** Reading the attributes `stringifyData` writes gives back the same entries, in the same order. */
  lemma StringifyDataRoundTrip(d: Data)
    requires Printable(d)
    ensures FD.DataOf(StringifyData(d)) == d
  {
    var text := StringifyData(d);
    EntriesMatch(d);
    assert text[0..] == text;
    ReadPieces(text, 0, EntryTexts(d), EntryMatches(d), []);
    EntryMatchesName(d);
    AssignEntries([], EntryMatches(d), d);
  }

  /** A `false` value is written as a flag, which reads back as `true`. */
  lemma FalseReadsAsTrue(key: string)
    requires FD.IsKey(key)
    ensures FD.DataOf(StringifyData([(key, Bool(false))])) == [(key, Bool(true))]
  {
    var e := EntryText(key, Bool(false));
    assert EntryTexts([(key, Bool(false))]) == [e];
    assert Concat([e]) == e + Concat([e][1..]);
    assert [e][1..] == [];
    assert StringifyData([(key, Bool(false))]) == e + "";
    FlagBefore(key, "");
    assert e + "" == e;
    FD.DataOfSingle(e, FD.AttrMatch(|e|, key, FD.NoValue));
  }

  // ---------------------------------------------------------------------------
  // Lines

  /** `[a, b].filter(Boolean).join(sep)`. */
  function JoinPresent(a: string, b: string, sep: string): string {
    if a == "" then b else if b == "" then a else a + sep + b
  }

  /** `"." + c` for each part of `classes.split(" ")`, joined with nothing. */
  function Dotted(parts: seq<string>): string {
    if |parts| == 0 then "" else "." + parts[0] + Dotted(parts[1..])
  }

  /** The classes written as selectors, or nothing when there are none. */
  function ClassSelectors(classes: string): string {
    if classes == "" then "" else Dotted(Split(classes, ' '))
  }

  /** The data without the three feature keys, as the object rest `..._data` keeps it. */
  function Rest(d: Data): Data {
    Without(d, {"label", "id", "classes"})
  }

  /** The line of a node: its escaped label and its features, separated by a space. */
  function NodeLine(d: Data): string {
    var lbl := GetText(d, "label");
    var id := GetText(d, "id");
    var idPart := if id != lbl then "#" + id else "";
    JoinPresent(EscapeLabel(lbl), idPart + ClassSelectors(GetText(d, "classes")) + StringifyData(Rest(d)), " ")
  }

  /**
   * The line of an edge: two spaces, the edge's features and escaped label
   * followed by `: ` when there are any, then the target in parentheses, by
   * `#id` when its id differs from its label and by its label otherwise.
   */
  function EdgeLine(d: Data, target: Data): string {
    var lbl := GetText(d, "label");
    var id := GetText(d, "id");
    var idPart := if id != "" && id != lbl then "#" + id else id;
    var text := JoinPresent(idPart + ClassSelectors(GetText(d, "classes")) + StringifyData(Rest(d)), EscapeLabel(lbl), " ");
    var prefix := if text != "" then text + ": " else "";
    var targetId := GetText(target, "id");
    var targetLbl := GetText(target, "label");
    var link := if targetId != targetLbl then "#" + targetId else targetLbl;
    "  " + prefix + "(" + link + ")"
  }

  /** `nodes.find((node) => node.data.id === id)`. */
  function FindNode(nodes: seq<Node>, id: string): (r: Option<Node>)
    ensures r.Some? ==> r.value in nodes
  {
    if |nodes| == 0 then None
    else if Get(nodes[0].data, "id") == Some(Str(id)) then Some(nodes[0])
    else FindNode(nodes[1..], id)
  }

  /** `edges.filter((edge) => edge.source === id)`. */
  function Outgoing(edges: seq<Edge>, id: string): seq<Edge> {
    if |edges| == 0 then []
    else Outgoing(edges[..|edges| - 1], id) + (if edges[|edges| - 1].source == id then [edges[|edges| - 1]] else [])
  }

  /** One line per edge whose target is a node; the others are skipped. */
  function EdgeLines(nodes: seq<Node>, edges: seq<Edge>): seq<string> {
    if |edges| == 0 then []
    else
      var e := edges[|edges| - 1];
      EdgeLines(nodes, edges[..|edges| - 1])
      + match FindNode(nodes, e.target)
        case None => []
        case Some(t) => [EdgeLine(e.data, t.data)]
  }

  /** A node's line followed by the lines of the edges leaving it. */
  function NodeBlock(g: Graph, n: Node): seq<string> {
    [NodeLine(n.data)] + EdgeLines(g.nodes, Outgoing(g.edges, GetText(n.data, "id")))
  }

  /** The lists of `bs` one after the other. */
  function Flatten<T>(bs: seq<seq<T>>): seq<T> {
    if |bs| == 0 then [] else Flatten(bs[..|bs| - 1]) + bs[|bs| - 1]
  }

  /** The block of each node of `nodes`. */
  function BlockSeq(g: Graph, nodes: seq<Node>): (r: seq<seq<string>>)
    ensures |r| == |nodes|
  {
    MapSeq(nodes, n => NodeBlock(g, n))
  }

  lemma BlockAt(g: Graph, nodes: seq<Node>, k: nat)
    requires k < |nodes|
    ensures BlockSeq(g, nodes)[k] == NodeBlock(g, nodes[k])
  {
    MapSeqAt(nodes, n => NodeBlock(g, n), k);
  }

  lemma FlattenSnoc<T>(bs: seq<seq<T>>, b: seq<T>)
    ensures Flatten(bs + [b]) == Flatten(bs) + b
  {
    assert (bs + [b])[..|bs|] == bs;
  }

  /** The blocks of `nodes`, in order. */
  function Blocks(g: Graph, nodes: seq<Node>): seq<string> {
    Flatten(BlockSeq(g, nodes))
  }

  function StringifyOf(g: Graph): string
    requires IsFeatureGraph(g)
  {
    Join(Blocks(g, g.nodes), "\n")
  }

  /** The inner loop of `stringify`: the lines of the edges leaving one node. */
  method EdgeLinesOf(nodes: seq<Node>, edges: seq<Edge>) returns (lines: seq<string>)
    ensures lines == EdgeLines(nodes, edges)
  {
    lines := [];
    for j := 0 to |edges|
      invariant lines == EdgeLines(nodes, edges[..j])
    {
      var edge := edges[j];
      var target := FindNode(nodes, edge.target);
      assert edges[..j + 1][..j] == edges[..j];
      if target.None? {
        continue;
      }
      lines := lines + [EdgeLine(edge.data, target.value.data)];
    }
    assert edges[..|edges|] == edges;
  }

  /** The lines `stringify` writes for one node. */
  method NodeBlockOf(g: Graph, node: Node) returns (block: seq<string>)
    ensures block == NodeBlock(g, node)
  {
    var edgeLines := EdgeLinesOf(g.nodes, Outgoing(g.edges, GetText(node.data, "id")));
    block := [NodeLine(node.data)] + edgeLines;
  }

  /** `stringify`. */
  method StringifyGraph(g: Graph) returns (text: string)
    requires IsFeatureGraph(g)
    ensures text == StringifyOf(g)
  {
    var lines: seq<string> := [];
    for i := 0 to |g.nodes|
      invariant lines == Blocks(g, g.nodes[..i])
    {
      var block := NodeBlockOf(g, g.nodes[i]);
      assert g.nodes[..i + 1][..i] == g.nodes[..i];
      FlattenSnoc(BlockSeq(g, g.nodes[..i]), block);
      lines := lines + block;
    }
    assert g.nodes[..|g.nodes|] == g.nodes;
    text := Join(lines, "\n");
  }

  // ---------------------------------------------------------------------------
  // Properties

  /** A graph without nodes is written as the empty text, whatever its edges. */
  lemma EmptyGraph(edges: seq<Edge>)
    requires IsFeatureGraph(Graph([], edges))
    ensures StringifyOf(Graph([], edges)) == ""
  {
  }

  /** The edges that leave a node are exactly the edges with that source, in their order. */
  lemma {:induction false} OutgoingSpec(edges: seq<Edge>, id: string)
    ensures forall e :: e in Outgoing(edges, id) <==> e in edges && e.source == id
    ensures |Outgoing(edges, id)| <= |edges|
    decreases |edges|
  {
    if |edges| > 0 {
      OutgoingSpec(edges[..|edges| - 1], id);
      assert edges == edges[..|edges| - 1] + [edges[|edges| - 1]];
    }
  }

  /** `find` gives the first node with the id, and nothing exactly when no node has it. */
  lemma {:induction false} FindNodeSpec(nodes: seq<Node>, id: string)
    ensures FindNode(nodes, id).None? <==> forall i :: 0 <= i < |nodes| ==> Get(nodes[i].data, "id") != Some(Str(id))
    ensures FindNode(nodes, id).Some? ==>
              exists i :: 0 <= i < |nodes| && FindNode(nodes, id) == Some(nodes[i])
                          && Get(nodes[i].data, "id") == Some(Str(id))
                          && forall j :: 0 <= j < i ==> Get(nodes[j].data, "id") != Some(Str(id))
    decreases |nodes|
  {
    if |nodes| > 0 && Get(nodes[0].data, "id") != Some(Str(id)) {
      FindNodeSpec(nodes[1..], id);
      assert forall i :: 0 <= i < |nodes| - 1 ==> nodes[1..][i] == nodes[i + 1];
      if FindNode(nodes, id).Some? {
        var i :| 0 <= i < |nodes[1..]| && FindNode(nodes[1..], id) == Some(nodes[1..][i])
                 && Get(nodes[1..][i].data, "id") == Some(Str(id))
                 && forall j :: 0 <= j < i ==> Get(nodes[1..][j].data, "id") != Some(Str(id));
        assert FindNode(nodes, id) == Some(nodes[i + 1]);
      }
    }
  }

  /** Edges with a target node each give one line; others give none. */
  function TargetCount(nodes: seq<Node>, edges: seq<Edge>): (n: nat)
    ensures n <= |edges|
  {
    if |edges| == 0 then 0
    else TargetCount(nodes, edges[..|edges| - 1]) + (if FindNode(nodes, edges[|edges| - 1].target).Some? then 1 else 0)
  }

  /** Every edge counts exactly when every target is a node. */
  lemma {:induction false} TargetCountAll(nodes: seq<Node>, edges: seq<Edge>)
    ensures TargetCount(nodes, edges) == |edges| <==> forall i :: 0 <= i < |edges| ==> FindNode(nodes, edges[i].target).Some?
    decreases |edges|
  {
    if |edges| > 0 {
      var init := edges[..|edges| - 1];
      TargetCountAll(nodes, init);
      assert forall i :: 0 <= i < |init| ==> init[i] == edges[i];
    }
  }

  /** An edge line is indented by two spaces and ends with the parenthesised target. */
  predicate IsEdgeLineShape(l: string) {
    |l| >= 4 && l[..2] == "  " && l[|l| - 1] == ')'
  }

  lemma EdgeLineShape(d: Data, target: Data)
    ensures IsEdgeLineShape(EdgeLine(d, target))
  {
  }

  /**
   * One edge line per edge whose target is a node, so there are as many
   * lines as edges exactly when every target exists; each line has the
   * shape of an edge line.
   */
  lemma {:induction false} EdgeLinesSpec(nodes: seq<Node>, edges: seq<Edge>)
    ensures |EdgeLines(nodes, edges)| == TargetCount(nodes, edges)
    ensures forall k :: 0 <= k < |EdgeLines(nodes, edges)| ==> IsEdgeLineShape(EdgeLines(nodes, edges)[k])
    decreases |edges|
  {
    if |edges| > 0 {
      var init := edges[..|edges| - 1];
      EdgeLinesSpec(nodes, init);
      var e := edges[|edges| - 1];
      match FindNode(nodes, e.target)
      case None =>
      case Some(t) =>
        EdgeLineShape(e.data, t.data);
    }
  }

  lemma {:induction false} FlattenAppend<T>(a: seq<seq<T>>, b: seq<seq<T>>)
    ensures Flatten(a + b) == Flatten(a) + Flatten(b)
    decreases |b|
  {
    if |b| > 0 {
      var init := b[..|b| - 1];
      FlattenAppend(a, init);
      assert (a + b)[..|a + b| - 1] == a + init;
      assert (a + b)[|a + b| - 1] == b[|b| - 1];
    } else {
      assert a + b == a;
    }
  }

  lemma {:induction false} FlattenLength<T>(bs: seq<seq<T>>)
    requires forall i :: 0 <= i < |bs| ==> |bs[i]| > 0
    ensures |Flatten(bs)| >= |bs|
    decreases |bs|
  {
    if |bs| > 0 {
      FlattenLength(bs[..|bs| - 1]);
    }
  }

  lemma FlattenSplit<T>(bs: seq<seq<T>>, k: nat)
    requires k < |bs|
    ensures Flatten(bs) == Flatten(bs[..k]) + bs[k] + Flatten(bs[k + 1..])
  {
    var a, m, c := bs[..k], [bs[k]], bs[k + 1..];
    assert bs == a + bs[k..];
    assert bs[k..] == m + c;
    ConcatAssoc(a, m, c);
    FlattenAppend(a + m, c);
    FlattenAppend(a, m);
    assert m[..0] == [];
    assert Flatten(m) == Flatten([]) + bs[k];
  }

  lemma BlocksPrefix(g: Graph, nodes: seq<Node>, k: nat)
    requires k <= |nodes|
    ensures Blocks(g, nodes[..k]) == Flatten(BlockSeq(g, nodes)[..k])
  {
    MapSeqSlice(nodes, n => NodeBlock(g, n), 0, k);
    assert nodes[0..k] == nodes[..k];
  }

  lemma BlocksSuffix(g: Graph, nodes: seq<Node>, k: nat)
    requires k <= |nodes|
    ensures Blocks(g, nodes[k..]) == Flatten(BlockSeq(g, nodes)[k..])
  {
    var bs := BlockSeq(g, nodes);
    MapSeqSlice(nodes, n => NodeBlock(g, n), k, |nodes|);
    assert nodes[k..|nodes|] == nodes[k..];
    assert bs[k..|nodes|] == bs[k..];
    assert BlockSeq(g, nodes[k..]) == bs[k..];
  }

  /**
   * The text is the blocks of the nodes in node order: the block of node `k`
   * comes after the blocks of the nodes before it and before those of the
   * nodes after it, and it starts with the node's own line.
   */
  lemma BlocksSpec(g: Graph, nodes: seq<Node>, k: nat)
    requires k < |nodes|
    ensures Blocks(g, nodes) == Blocks(g, nodes[..k]) + NodeBlock(g, nodes[k]) + Blocks(g, nodes[k + 1..])
    ensures NodeBlock(g, nodes[k])[0] == NodeLine(nodes[k].data)
  {
    var bs := BlockSeq(g, nodes);
    FlattenSplit(bs, k);
    BlockAt(g, nodes, k);
    BlocksPrefix(g, nodes, k);
    BlocksSuffix(g, nodes, k + 1);
  }

  lemma BlocksLength(g: Graph, nodes: seq<Node>)
    ensures |Blocks(g, nodes)| >= |nodes|
  {
    var bs := BlockSeq(g, nodes);
    forall i | 0 <= i < |bs|
      ensures |bs[i]| > 0
    {
      BlockAt(g, nodes, i);
    }
    FlattenLength(bs);
    assert Blocks(g, nodes) == Flatten(bs);
  }

  /** When no line holds a newline, splitting the text on newlines gives the lines back. */
  lemma StringifyLines(g: Graph)
    requires IsFeatureGraph(g) && |g.nodes| > 0
    requires forall l :: l in Blocks(g, g.nodes) ==> '\n' !in l
    ensures Split(StringifyOf(g), '\n') == Blocks(g, g.nodes)
  {
    BlocksLength(g, g.nodes);
    var lines := Blocks(g, g.nodes);
    assert forall k :: 0 <= k < |lines| ==> '\n' !in lines[k] by {
      assert forall k :: 0 <= k < |lines| ==> lines[k] in lines;
    }
    SplitJoin(lines, '\n');
  }

  /** A node whose id is its label and that has no classes and no other data is written as its escaped label. */
  lemma PlainNodeLine(d: Data)
    requires GetText(d, "id") == GetText(d, "label") && GetText(d, "classes") == "" && Rest(d) == []
    ensures NodeLine(d) == EscapeLabel(GetText(d, "label"))
  {
  }

  /** The selectors of space-separated classes are the classes, each after a dot. */
  lemma {:induction false} ClassSelectorsOf(classes: seq<string>)
    requires |classes| > 0 && forall i :: 0 <= i < |classes| ==> ' ' !in classes[i]
    requires Join(classes, " ") != ""
    ensures ClassSelectors(Join(classes, " ")) == Dotted(classes)
  {
    SplitJoin(classes, ' ');
  }
}
