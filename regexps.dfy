/**
 * The two shared searches of regexps.ts: where an edge label ends
 * (`/[^\\][:：] /`) and where the feature run of a line starts
 * (`/(^|\s)(#|\.|\[)/`).
 */
module RegExps {
  import opened JsString

  /** The colon set of the edge-break pattern: ASCII `:` and full-width `：` (U+FF1A). */
  predicate IsColon(c: char) { c == ':' || c == '\U{FF1A}' }

  /** `/[^\\][:：] /` matches at `i`: a non-backslash, a colon and a space. */
  predicate EdgeBreakAt(line: string, i: nat) {
    i + 2 < |line| && line[i] != '\\' && IsColon(line[i + 1]) && line[i + 2] == ' '
  }

  function EdgeBreakFrom(line: string, from: nat): (r: int)
    ensures r == -1 || (from <= r && EdgeBreakAt(line, r))
    ensures forall i :: from <= i && (r == -1 || i < r) ==> !EdgeBreakAt(line, i)
    decreases |line| - from
  {
    if from + 2 >= |line| then -1
    else if EdgeBreakAt(line, from) then from
    else EdgeBreakFrom(line, from + 1)
  }

  /**
   * `getEdgeBreakIndex`: the index of the character before the first
   * unescaped colon that is followed by a space, or -1.
   */
  function GetEdgeBreakIndex(line: string): (r: int)
    ensures r == -1 <==> forall i :: 0 <= i < |line| ==> !EdgeBreakAt(line, i)
    ensures r != -1 ==> 0 <= r && r + 2 < |line| && line[r] != '\\' && IsColon(line[r + 1]) && line[r + 2] == ' '
    ensures r != -1 ==> forall i :: 0 <= i < r ==> !EdgeBreakAt(line, i)
  {
    EdgeBreakFrom(line, 0)
  }

  /** A colon at index 0 can never end an edge label: the break index is that of the character before a colon. */
  lemma LeadingColonIsNoBreak(line: string)
    requires |line| >= 2 && IsColon(line[0])
    requires forall i :: 1 <= i < |line| ==> !IsColon(line[i])
    ensures GetEdgeBreakIndex(line) == -1
  {
  }

  /** An escaped colon `\:` never ends an edge label. */
  lemma EscapedColonIsNoBreak(line: string)
    requires forall i :: 0 <= i < |line| && IsColon(line[i]) ==> i > 0 && line[i - 1] == '\\'
    ensures GetEdgeBreakIndex(line) == -1
  {
  }

  /** `#`, `.` or `[`: the characters that open a feature run. */
  predicate IsFeatureMark(c: char) { c == '#' || c == '.' || c == '[' }

  /** `/(^|\s)(#|\.|\[)/` matches at `p`. */
  predicate FeaturesStartAt(line: string, p: nat) {
    (p == 0 && |line| > 0 && IsFeatureMark(line[0]))
    || (p + 1 < |line| && IsSpace(line[p]) && IsFeatureMark(line[p + 1]))
  }

  function FeaturesFrom(line: string, from: nat): (r: nat)
    requires from <= |line|
    ensures from <= r <= |line|
    ensures r < |line| ==> FeaturesStartAt(line, r)
    ensures forall p :: from <= p < r ==> !FeaturesStartAt(line, p)
    decreases |line| - from
  {
    if from == |line| || FeaturesStartAt(line, from) then from
    else FeaturesFrom(line, from + 1)
  }

  /**
   * `getFeaturesIndex`: the index of the first match, or `|line|` when the
   * pattern does not match (it is never -1).
   */
  function GetFeaturesIndex(line: string): (r: nat)
    ensures r <= |line|
    ensures r < |line| <==> exists p :: 0 <= p < |line| && FeaturesStartAt(line, p)
    ensures r < |line| ==> FeaturesStartAt(line, r)
    ensures r == 0 && |line| > 0 ==> IsFeatureMark(line[0]) || (IsSpace(line[0]) && IsFeatureMark(line[1]))
    ensures forall p :: 0 <= p < r ==> !FeaturesStartAt(line, p)
  {
    FeaturesFrom(line, 0)
  }

  /** A `.` inside a word, as in "period.cool", does not start a feature run. */
  lemma InnerDotIsNoFeature(line: string)
    requires |line| > 0 && !IsFeatureMark(line[0])
    requires forall i :: 0 <= i < |line| ==> !IsSpace(line[i])
    ensures GetFeaturesIndex(line) == |line|
  {
  }
}
