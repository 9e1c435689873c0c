/**
 * The class removal of the line-patch operations:
 * `text.replace(new RegExp(`\.${className}`), "")`. In a template literal
 * `\.` is just `.`, so the pattern is "any character but a line terminator,
 * then the class name", and `replace` deletes its first match only. Beside
 * it stands the removal the tests of the operations expect, which deletes
 * a whole class: a literal dot, the name, and no further class character.
 */
module ClassPattern {
  import opened JsString
  import FD = FeatureData
  import FT = FeatureText

  /** The pattern matches at `i`: a character that is not a line terminator, then `name`. */
  predicate MatchAt(s: string, name: string, i: nat) {
    i + 1 + |name| <= |s| && !IsLineTerminator(s[i]) && s[i + 1..i + 1 + |name|] == name
  }

  function MatchFrom(s: string, name: string, from: nat): (r: int)
    requires from <= |s|
    ensures r == -1 || (from <= r < |s| && MatchAt(s, name, r))
    ensures r == -1 ==> forall k :: from <= k < |s| ==> !MatchAt(s, name, k)
    ensures r != -1 ==> forall k :: from <= k < r ==> !MatchAt(s, name, k)
    decreases |s| - from
  {
    if from == |s| then -1
    else if MatchAt(s, name, from) then from
    else MatchFrom(s, name, from + 1)
  }

  /** The leftmost match, or -1 when there is none. */
  function FirstMatch(s: string, name: string): (r: int)
    ensures -1 <= r < |s|
    ensures r == -1 <==> forall k :: 0 <= k < |s| ==> !MatchAt(s, name, k)
    ensures r != -1 ==> MatchAt(s, name, r) && forall k :: 0 <= k < r ==> !MatchAt(s, name, k)
  {
    MatchFrom(s, name, 0)
  }

  /** `s.replace(new RegExp(`\.${name}`), "")`. */
  function RemoveFirstMatch(s: string, name: string): string {
    var i := FirstMatch(s, name);
    if i == -1 then s else s[..i] + s[i + 1 + |name|..]
  }

  /** The names removed one after the other, as the `for ... of` loops do. */
  function RemoveAll(s: string, names: seq<string>): string {
    if |names| == 0 then s
    else RemoveFirstMatch(RemoveAll(s, names[..|names| - 1]), names[|names| - 1])
  }

  /** `for (const className of classNames) text = text.replace(...)`. */
  method RemoveClassNames(s: string, classNames: seq<string>) returns (r: string)
    ensures r == RemoveAll(s, classNames)
  {
    r := s;
    for i := 0 to |classNames|
      invariant r == RemoveAll(s, classNames[..i])
    {
      assert classNames[..i + 1][..i] == classNames[..i];
      r := RemoveFirstMatch(r, classNames[i]);
    }
    assert classNames[..|classNames|] == classNames;
  }

  // ---------------------------------------------------------------------------
  // Properties of the removal as written

  /**
   * The text changes exactly when the pattern matches; then the first match,
   * one character and the name, is cut out and putting it back gives the text.
   */
  lemma RemoveFirstMatchSpec(s: string, name: string)
    ensures RemoveFirstMatch(s, name) == s <==> FirstMatch(s, name) == -1
    ensures var i := FirstMatch(s, name);
            var r := RemoveFirstMatch(s, name);
            i != -1 ==> |r| == |s| - 1 - |name| && r[..i] + s[i..i + 1 + |name|] + r[i..] == s
  {
    var i := FirstMatch(s, name);
    var r := RemoveFirstMatch(s, name);
    if i != -1 {
      assert |r| < |s|;
      assert r[..i] == s[..i];
      assert r[i..] == s[i + 1 + |name|..];
      assert s[..i] + s[i..i + 1 + |name|] + s[i + 1 + |name|..] == s;
    }
  }

  /** Removal only deletes characters. */
  lemma RemoveFirstMatchChars(s: string, name: string)
    ensures forall c :: c in RemoveFirstMatch(s, name) ==> c in s
  {
    var i := FirstMatch(s, name);
    if i != -1 {
      forall c | c in RemoveFirstMatch(s, name)
        ensures c in s
      {
        var j :| 0 <= j < |RemoveFirstMatch(s, name)| && RemoveFirstMatch(s, name)[j] == c;
        if j < i {
          assert s[j] == c;
        } else {
          assert s[j + 1 + |name|] == c;
        }
      }
    }
  }

  /** When no name matches, the text is left as it is. */
  lemma {:induction false} RemoveAllAbsent(s: string, names: seq<string>)
    requires forall k :: 0 <= k < |names| ==> FirstMatch(s, names[k]) == -1
    ensures RemoveAll(s, names) == s
  {
    if |names| > 0 {
      RemoveAllAbsent(s, names[..|names| - 1]);
    }
  }

  /** Removing several names only deletes characters. */
  lemma {:induction false} RemoveAllChars(s: string, names: seq<string>)
    ensures forall c :: c in RemoveAll(s, names) ==> c in s
  {
    if |names| > 0 {
      RemoveAllChars(s, names[..|names| - 1]);
      RemoveFirstMatchChars(RemoveAll(s, names[..|names| - 1]), names[|names| - 1]);
    }
  }

  /** A match in a piece of a text is a match in the whole text, shifted. */
  lemma MatchInside(pre: string, s: string, post: string, name: string, k: nat)
    requires MatchAt(s, name, k)
    ensures MatchAt(pre + s + post, name, |pre| + k)
  {
    var t := pre + s + post;
    assert t[|pre| + k] == s[k];
    assert t[|pre| + k + 1..|pre| + k + 1 + |name|] == s[k + 1..k + 1 + |name|];
  }

  /** A name that matches nowhere in a text matches nowhere in a piece of it. */
  lemma AbsentInside(pre: string, s: string, post: string, name: string)
    requires FirstMatch(pre + s + post, name) == -1
    ensures FirstMatch(s, name) == -1
  {
    forall k | 0 <= k < |s|
      ensures !MatchAt(s, name, k)
    {
      if MatchAt(s, name, k) {
        MatchInside(pre, s, post, name, k);
      }
    }
  }

  /**
   * The class `rectangle` is cut out of `.roundrectangle`: its own `d` and
   * the name match the pattern, so `.roun` is left.
   */
  lemma PartialClassRemoved()
    ensures RemoveFirstMatch(".roundrectangle", "rectangle") == ".roun"
  {
    var s := ".roundrectangle";
    var n := "rectangle";
    assert MatchAt(s, n, 5) by { assert s[6..15] == n; }
    assert !MatchAt(s, n, 0) by { assert s[1..10][1] == s[2] != n[1]; }
    assert !MatchAt(s, n, 1) by { assert s[2..11][0] == s[2] != n[0]; }
    assert !MatchAt(s, n, 2) by { assert s[3..12][0] == s[3] != n[0]; }
    assert !MatchAt(s, n, 3) by { assert s[4..13][0] == s[4] != n[0]; }
    assert !MatchAt(s, n, 4) by { assert s[5..14][0] == s[5] != n[0]; }
    assert s[..5] + s[15..] == ".roun";
  }

  // ---------------------------------------------------------------------------
  // The removal the tests expect: whole classes only

  /** The class `name` stands at `i` as a whole class: a dot, the name, then no further class character. */
  predicate ClassAt(s: string, name: string, i: nat) {
    i + 1 + |name| <= |s| && s[i] == '.' && s[i + 1..i + 1 + |name|] == name
    && (i + 1 + |name| == |s| || !FD.IsIdChar(s[i + 1 + |name|]))
  }

  function ClassFrom(s: string, name: string, from: nat): (r: int)
    requires from <= |s|
    ensures r == -1 || (from <= r < |s| && ClassAt(s, name, r))
    ensures r == -1 ==> forall k :: from <= k < |s| ==> !ClassAt(s, name, k)
    ensures r != -1 ==> forall k :: from <= k < r ==> !ClassAt(s, name, k)
    decreases |s| - from
  {
    if from == |s| then -1
    else if ClassAt(s, name, from) then from
    else ClassFrom(s, name, from + 1)
  }

  /** The leftmost whole class `name`, or -1. */
  function FirstClass(s: string, name: string): (r: int)
    ensures -1 <= r < |s|
    ensures r == -1 <==> forall k :: 0 <= k < |s| ==> !ClassAt(s, name, k)
    ensures r != -1 ==> ClassAt(s, name, r) && forall k :: 0 <= k < r ==> !ClassAt(s, name, k)
  {
    ClassFrom(s, name, 0)
  }

  /** Deleting the first whole class `name`, dot included. */
  function RemoveClass(s: string, name: string): string {
    var i := FirstClass(s, name);
    if i == -1 then s else s[..i] + s[i + 1 + |name|..]
  }

  /** A class list written out: `.c1.c2...`. */
  function Dotted(cs: seq<string>): string {
    if |cs| == 0 then "" else "." + cs[0] + Dotted(cs[1..])
  }

  /** The list without its first element equal to `n`. */
  function RemoveFirst(cs: seq<string>, n: string): seq<string> {
    if |cs| == 0 then [] else if cs[0] == n then cs[1..] else [cs[0]] + RemoveFirst(cs[1..], n)
  }

  predicate ClassNames(cs: seq<string>) {
    forall k :: 0 <= k < |cs| ==> FT.ClassName(cs[k])
  }

  lemma DottedStart(cs: seq<string>)
    ensures Dotted(cs) == "" || Dotted(cs)[0] == '.'
  {
  }

  /** Whole-class matches in `("." + c) + q` past the first class are those of `q`, shifted. */
  lemma ClassAtShift(c: string, q: string, name: string, j: nat)
    ensures ClassAt("." + c + q, name, 1 + |c| + j) <==> ClassAt(q, name, j)
  {
    var s := "." + c + q;
    var o := 1 + |c|;
    if o + j + 1 + |name| <= |s| {
      assert s[o + j] == q[j];
      assert s[o + j + 1..o + j + 1 + |name|] == q[j + 1..j + 1 + |name|];
      if o + j + 1 + |name| < |s| {
        assert s[o + j + 1 + |name|] == q[j + 1 + |name|];
      }
    }
  }

  /** No whole class `name` starts inside the first class when that class is not `name`. */
  lemma NoClassInFirst(c: string, q: string, name: string, i: nat)
    requires FT.ClassName(c) && FT.ClassName(name) && c != name && i < 1 + |c|
    requires q == "" || q[0] == '.'
    ensures !ClassAt("." + c + q, name, i)
  {
    var s := "." + c + q;
    var m := |name|;
    if i > 0 {
      assert s[i] == c[i - 1];
      assert FD.IsIdChar(c[i - 1]);
    } else if m == |c| {
      assert s[1..1 + m] == c;
    } else if m < |c| {
      assert s[1 + m] == c[m];
      assert FD.IsIdChar(c[m]);
    } else if 1 + m <= |s| {
      assert s[1 + |c|] == q[0];
      assert s[1..1 + m][|c|] == s[1 + |c|];
      assert FD.IsIdChar(name[|c|]);
    }
  }

  /** Past a first class that is not `name`, the first whole class is the one in the rest. */
  lemma FirstClassPastFirst(c: string, q: string, name: string)
    requires FT.ClassName(c) && FT.ClassName(name) && c != name
    requires q == "" || q[0] == '.'
    ensures var jq := FirstClass(q, name);
            FirstClass("." + c + q, name) == (if jq == -1 then -1 else 1 + |c| + jq)
  {
    var s := "." + c + q;
    var o := 1 + |c|;
    var jq := FirstClass(q, name);
    var bound := if jq == -1 then |s| else o + jq;
    forall k | 0 <= k < bound
      ensures !ClassAt(s, name, k)
    {
      if k < o {
        NoClassInFirst(c, q, name, k);
      } else {
        ClassAtShift(c, q, name, k - o);
      }
    }
    if jq != -1 {
      ClassAtShift(c, q, name, jq);
    }
  }

  /** Cutting a match at `|p| + j` out of `p + q` is cutting it at `j` out of `q`. */
  lemma CutPastPrefix(p: string, q: string, j: nat, name: string)
    requires j + 1 + |name| <= |q|
    ensures (p + q)[..|p| + j] + (p + q)[|p| + j + 1 + |name|..] == p + (q[..j] + q[j + 1 + |name|..])
  {
    var s := p + q;
    assert s[..|p| + j] == p + q[..j];
    assert s[|p| + j + 1 + |name|..] == q[j + 1 + |name|..];
    ConcatAssoc(p, q[..j], q[j + 1 + |name|..]);
  }

  /** When the first whole class of `p + q` is that of `q` shifted, the removal leaves `p` alone. */
  lemma RemoveShifted(p: string, q: string, name: string)
    requires var jq := FirstClass(q, name);
             FirstClass(p + q, name) == (if jq == -1 then -1 else |p| + jq)
    ensures RemoveClass(p + q, name) == p + RemoveClass(q, name)
  {
    var jq := FirstClass(q, name);
    if jq != -1 {
      CutPastPrefix(p, q, jq, name);
      RemoveAtFirst(p + q, name, |p| + jq);
      RemoveAtFirst(q, name, jq);
    }
  }

  /** The removal cuts `name` and its dot out at the index of the first whole class. */
  lemma RemoveAtFirst(s: string, name: string, i: nat)
    requires FirstClass(s, name) == i
    ensures i + 1 + |name| <= |s| && RemoveClass(s, name) == s[..i] + s[i + 1 + |name|..]
  {
  }

  /** Past a first class that is not `name`, the intended removal works on the rest. */
  lemma RemoveClassPastFirst(c: string, q: string, name: string)
    requires FT.ClassName(c) && FT.ClassName(name) && c != name
    requires q == "" || q[0] == '.'
    ensures RemoveClass("." + c + q, name) == "." + c + RemoveClass(q, name)
  {
    FirstClassPastFirst(c, q, name);
    RemoveShifted("." + c, q, name);
  }

  /** A first class equal to `name` is the one the intended removal deletes. */
  lemma RemoveClassFirst(cs: seq<string>, name: string)
    requires FT.ClassName(name)
    ensures RemoveClass("." + name + Dotted(cs), name) == Dotted(cs)
  {
    var q := Dotted(cs);
    var s := "." + name + q;
    assert s[1..1 + |name|] == name;
    DottedStart(cs);
    if 1 + |name| < |s| {
      assert s[1 + |name|] == q[0];
    }
    assert ClassAt(s, name, 0);
    assert s[1 + |name|..] == q;
  }

  /**
   * On a list of valid class names, the intended removal deletes exactly
   * the first class equal to `name` and no part of any other class.
   */
  lemma {:induction false} RemoveClassFromList(cs: seq<string>, name: string)
    requires ClassNames(cs) && FT.ClassName(name)
    ensures RemoveClass(Dotted(cs), name) == Dotted(RemoveFirst(cs, name))
  {
    if |cs| > 0 {
      var c := cs[0];
      assert Dotted(cs) == "." + c + Dotted(cs[1..]);
      if c == name {
        RemoveClassFirst(cs[1..], name);
      } else {
        assert ClassNames(cs[1..]) by {
          forall k | 0 <= k < |cs[1..]|
            ensures FT.ClassName(cs[1..][k])
          {
            assert cs[1..][k] == cs[k + 1];
          }
        }
        RemoveClassFromList(cs[1..], name);
        DottedStart(cs[1..]);
        RemoveClassPastFirst(c, Dotted(cs[1..]), name);
        var rest := RemoveFirst(cs[1..], name);
        assert ([c] + rest)[1..] == rest;
        assert Dotted([c] + rest) == "." + c + Dotted(rest);
      }
    }
  }

  /** The intended removal leaves `.roundrectangle` alone when asked for `rectangle`. */
  lemma PartialClassKept()
    ensures RemoveClass(".roundrectangle", "rectangle") == ".roundrectangle"
  {
    var cs := ["roundrectangle"];
    assert Dotted(cs[1..]) == "";
    assert Dotted(cs) == ".roundrectangle";
    assert FT.ClassName("roundrectangle") && FT.ClassName("rectangle");
    RemoveClassFromList(cs, "rectangle");
  }
}
