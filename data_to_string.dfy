/**
 * `dataToString` (operate/dataToString.ts, and the identical copy local to
 * addClassToNode.ts): a data object written back as attribute text, one
 * bracket group per entry in key order. A string is wrapped in double
 * quotes, or in single quotes when it holds a double quote; `true` is a bare
 * `[key]`; `false` leaves the bracket open.
 */
module DataToString {
  import opened JsString
  import opened Types
  import JsNumber
  import FD = FeatureData
  import S = Stringify

  /** The text one entry is written as. */
  function EntryString(key: string, value: Descriptor): (r: string)
    ensures |r| > 0 && r[0] == '['
  {
    match value
    case Bool(b) => if b then "[" + key + "]" else "[" + key
    case Str(s) =>
      if '"' in s then "[" + key + "=" + ("'" + s + "']")
      else "[" + key + "=" + ("\"" + s + "\"]")
    case Num(l) => "[" + key + "=" + (l + "]")
  }

  function EntryStrings(d: Data): (r: seq<string>)
    ensures |r| == |d|
  {
    seq(|d|, i requires 0 <= i < |d| => EntryString(d[i].0, d[i].1))
  }

  /** The attribute text of a data object: its entries' texts with nothing between them. */
  function DataString(d: Data): string {
    S.Concat(EntryStrings(d))
  }

  /** `dataToString`: the `for ... in` loop appending each entry's text. */
  method DataToStringOf(data: Data) returns (dataString: string)
    ensures dataString == DataString(data)
  {
    dataString := "";
    for i := 0 to |data|
      invariant dataString == DataString(data[..i])
    {
      EntryStep(data, i);
      var (key, value) := data[i];
      dataString := AppendEntry(dataString, key, value);
    }
    assert data[..|data|] == data;
  }

  /** The body of the loop: `[key`, then the rest of the entry by the kind of the value. */
  method AppendEntry(text: string, key: string, value: Descriptor) returns (dataString: string)
    ensures dataString == text + EntryString(key, value)
  {
    var open := "[" + key;
    dataString := text + open;
    if value == Bool(true) {
      dataString := dataString + "]";
      ConcatAssoc(text, open, "]");
    } else if value.Str? {
      var v := value.s;
      if '"' in v {
        dataString := dataString + ("=" + ("'" + v + "']"));
        ConcatAssoc(text, open, "=" + ("'" + v + "']"));
        ConcatAssoc(open, "=", "'" + v + "']");
      } else {
        dataString := dataString + ("=" + ("\"" + v + "\"]"));
        ConcatAssoc(text, open, "=" + ("\"" + v + "\"]"));
        ConcatAssoc(open, "=", "\"" + v + "\"]");
      }
    } else if value.Num? {
      var l := value.literal;
      dataString := dataString + ("=" + (l + "]"));
      ConcatAssoc(text, open, "=" + (l + "]"));
      ConcatAssoc(open, "=", l + "]");
    }
  }

  lemma {:induction false} ConcatSnoc(ps: seq<string>, x: string)
    ensures S.Concat(ps + [x]) == S.Concat(ps) + x
    decreases |ps|
  {
    if |ps| == 0 {
      assert ps + [x] == [x];
      assert S.Concat([x]) == x + S.Concat([x][1..]);
      assert [x][1..] == [];
    } else {
      assert (ps + [x])[1..] == ps[1..] + [x];
      ConcatSnoc(ps[1..], x);
    }
  }

  /** One more round of the loop appends the next entry's text. */
  lemma EntryStep(d: Data, i: nat)
    requires i < |d|
    ensures DataString(d[..i + 1]) == DataString(d[..i]) + EntryString(d[i].0, d[i].1)
  {
    assert EntryStrings(d[..i + 1]) == EntryStrings(d[..i]) + [EntryString(d[i].0, d[i].1)];
    ConcatSnoc(EntryStrings(d[..i]), EntryString(d[i].0, d[i].1));
  }

  // ---------------------------------------------------------------------------
  // Properties

  /** No entries give no text; one more entry appends its text, with no separator. */
  lemma DataStringAppend(d: Data, key: string, value: Descriptor)
    ensures DataString([]) == ""
    ensures DataString(d + [(key, value)]) == DataString(d) + EntryString(key, value)
  {
    var d' := d + [(key, value)];
    assert d'[..|d|] == d;
    assert d'[..|d| + 1] == d';
    EntryStep(d', |d|);
  }

  /** `false` is written as `[key`, which the attribute pattern never matches on its own. */
  lemma FalseIsUnterminated(key: string)
    requires FD.IsKey(key)
    ensures EntryString(key, Bool(false)) == "[" + key
    ensures FD.AttrPrefix(EntryString(key, Bool(false))) == None
  {
    var s := "[" + key;
    assert s[1..] == key;
    FD.RunsAreMaximal(key, ']');
    NoStopInKey(key);
  }

  lemma {:induction false} NoStopInKey(k: string)
    requires FD.IsKey(k)
    ensures FD.KeyRun(k) == |k|
  {
    if |k| > 1 {
      assert k[1..][0] == k[1];
      NoStopInKey(k[1..]);
    }
  }

  /** An entry that reads back as itself. */
  predicate WritableEntry(key: string, value: Descriptor) {
    FD.IsKey(key) &&
    match value
    case Bool(b) => b
    case Str(s) => |s| > 0 && ('"' in s ==> '\'' !in s)
    case Num(l) => |l| > 0 && ']' !in l && l[0] != '\'' && l[0] != '"' && JsNumber.IsNumeric(l)
  }

  /** Data whose attribute text reads back as the same data. */
  predicate Writable(d: Data) {
    DistinctKeys(d) && forall i :: 0 <= i < |d| ==> WritableEntry(d[i].0, d[i].1)
  }

  lemma SingleQuotedBefore(v: string, rest: string)
    requires |v| > 0 && '\'' !in v
    ensures FD.ValuePrefix("'" + v + "']" + rest) == Some((|v| + 3, FD.Quoted(v)))
  {
    var t := "'" + v + "']" + rest;
    assert t[1..] == v + ("']" + rest);
    FD.RunWithoutOf(v, '\'', "']" + rest);
    assert t[1..|v| + 1] == v;
    assert t[|v| + 1] == '\'' && t[|v| + 2] == ']';
  }

  lemma SingleStrRead(key: string, v: string, rest: string)
    requires FD.IsKey(key) && |v| > 0 && '"' in v && '\'' !in v
    ensures FD.AttrPrefix(EntryString(key, Str(v)) + rest)
            == Some(FD.AttrMatch(|EntryString(key, Str(v))|, key, FD.Quoted(v)))
  {
    SingleRead(key, v, rest, EntryString(key, Str(v)));
  }

  lemma SingleRead(key: string, v: string, rest: string, e: string)
    requires FD.IsKey(key) && |v| > 0 && '\'' !in v
    requires e == "[" + key + "=" + ("'" + v + "']")
    ensures FD.AttrPrefix(e + rest) == Some(FD.AttrMatch(|e|, key, FD.Quoted(v)))
  {
    SingleQuotedBefore(v, rest);
    FD.EntryBefore(e + rest, e, key, "'" + v + "']", rest, |v| + 3, FD.Quoted(v));
  }

  lemma DoubleStrRead(key: string, v: string, rest: string)
    requires FD.IsKey(key) && |v| > 0 && '"' !in v
    ensures FD.AttrPrefix(EntryString(key, Str(v)) + rest)
            == Some(FD.AttrMatch(|EntryString(key, Str(v))|, key, FD.Quoted(v)))
  {
    S.StrEntryPrefix(key, v, rest, EntryString(key, Str(v)));
  }

  lemma StrEntryRead(key: string, v: string, rest: string)
    requires WritableEntry(key, Str(v))
    ensures FD.AttrPrefix(EntryString(key, Str(v)) + rest)
            == Some(FD.AttrMatch(|EntryString(key, Str(v))|, key, FD.Quoted(v)))
  {
    if '"' in v {
      SingleStrRead(key, v, rest);
    } else {
      DoubleStrRead(key, v, rest);
    }
  }

  lemma FlagEntryRead(key: string, rest: string)
    requires FD.IsKey(key)
    ensures FD.AttrPrefix(EntryString(key, Bool(true)) + rest)
            == Some(FD.AttrMatch(|EntryString(key, Bool(true))|, key, FD.NoValue))
  {
    S.FlagBefore(key, rest);
  }

  lemma NumEntryRead(key: string, l: string, rest: string)
    requires WritableEntry(key, Num(l))
    ensures FD.AttrPrefix(EntryString(key, Num(l)) + rest)
            == Some(FD.AttrMatch(|EntryString(key, Num(l))|, key, FD.Bare(l)))
  {
    assert EntryString(key, Num(l)) == S.EntryText(key, Num(l));
    S.NumEntryPrefix(key, l, rest);
  }

  /**
   * The attribute pattern matches a writable entry's text in full, whatever
   * follows it, and reads its key and value.
   */
  lemma EntryRead(key: string, value: Descriptor, rest: string)
    requires WritableEntry(key, value)
    ensures FD.AttrPrefix(EntryString(key, value) + rest)
            == Some(FD.AttrMatch(|EntryString(key, value)|, key, S.EntryValue(value)))
  {
    if value.Bool? {
      FlagEntryRead(key, rest);
    } else if value.Num? {
      NumEntryRead(key, value.literal, rest);
    } else {
      StrEntryRead(key, value.s, rest);
    }
  }

  /** The match the attribute pattern makes on each entry's text. */
  function EntryStringMatches(d: Data): (r: seq<FD.AttrMatch>)
    ensures |r| == |d|
  {
    seq(|d|, i requires 0 <= i < |d| => FD.AttrMatch(|EntryString(d[i].0, d[i].1)|, d[i].0, S.EntryValue(d[i].1)))
  }

  lemma EntriesRead(d: Data)
    requires Writable(d)
    ensures S.PiecesRead(EntryStrings(d), EntryStringMatches(d))
  {
    var ps := EntryStrings(d);
    var ms := EntryStringMatches(d);
    forall i | 0 <= i < |ps|
      ensures FD.AttrPrefix(S.Concat(ps[i..])) == Some(ms[i]) && ms[i].length == |ps[i]|
    {
      assert ps[i..][0] == ps[i] && ps[i..][1..] == ps[i + 1..];
      EntryRead(d[i].0, d[i].1, S.Concat(ps[i + 1..]));
    }
    S.PiecesReadAll(ps, ms);
  }

  lemma EntryStringMatchesName(d: Data)
    requires Writable(d)
    ensures S.MatchesEntries(EntryStringMatches(d), d)
  {
    forall i | 0 <= i < |d|
      ensures FD.AttrDescriptor(EntryStringMatches(d)[i].value) == d[i].1
    {
      S.EntryValueRead(d[i].1);
    }
  }

  /** Reading the attribute text back gives the same entries, in the same order. */
  lemma DataStringRoundTrip(d: Data)
    requires Writable(d)
    ensures FD.DataOf(DataString(d)) == d
  {
    var text := DataString(d);
    EntriesRead(d);
    assert text[0..] == text;
    S.ReadPieces(text, 0, EntryStrings(d), EntryStringMatches(d), []);
    EntryStringMatchesName(d);
    S.AssignEntries([], EntryStringMatches(d), d);
  }

  /**
   * Where both can write the data (no `false`, no double quote in a
   * string), `dataToString` and `stringifyData` write the same text.
   */
  lemma AgreesWithStringify(d: Data)
    requires S.Printable(d)
    ensures DataString(d) == S.StringifyData(d)
  {
    forall i | 0 <= i < |d|
      ensures EntryStrings(d)[i] == S.EntryTexts(d)[i]
    {
      S.AllPrintableAt(d, i);
      if d[i].1.Str? {
        S.EscapeQuotesPlain(d[i].1.s);
      }
    }
    assert EntryStrings(d) == S.EntryTexts(d);
  }

  /** Each entry's text is non-empty, so an empty text comes only from empty data. */
  lemma {:induction false} EmptyDataString(d: Data)
    ensures DataString(d) == "" <==> d == []
    decreases |d|
  {
    if |d| > 0 {
      var ps := EntryStrings(d);
      assert S.Concat(ps) == ps[0] + S.Concat(ps[1..]);
      assert ps[0] == EntryString(d[0].0, d[0].1);
    }
  }
}
