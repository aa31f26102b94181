/**
 * Character classes and string operations of Ruby that the parser relies on:
 * the `\s`, `\d` and `[0-9A-F]` classes, `\A`-anchored prefix tests,
 * `String#downcase` on header names and `String#split("\n")`.
 */
module Text {

  /** Ruby's `\s`: space, tab, line feed, vertical tab, form feed, carriage return. */
  predicate IsSpace(c: char) {
    c == ' ' || c == '\t' || c == '\n' || c == '\U{B}' || c == '\U{C}' || c == '\r'
  }

  /** Ruby's `\d` (ASCII digits only). */
  predicate IsDigit(c: char) { '0' <= c <= '9' }

  /** The class `[0-9A-F]`. */
  predicate IsUpperHex(c: char) { IsDigit(c) || 'A' <= c <= 'F' }

  /** Eight characters of the class `[0-9A-F]`, as `[0-9A-F]{8}` matches. */
  predicate IsHexCode(s: string) { |s| == 8 && forall k | 0 <= k < 8 :: IsUpperHex(s[k]) }

  /** The class `[-0-9A-Za-z]` of header-name characters. */
  predicate IsNameChar(c: char) {
    c == '-' || IsDigit(c) || 'A' <= c <= 'Z' || 'a' <= c <= 'z'
  }

  /** Every character of `s` is matched by `.` (which never matches a line feed). */
  predicate NoNewline(s: string) { '\n' !in s }

  predicate AllSpace(s: string) { forall k | 0 <= k < |s| :: IsSpace(s[k]) }

  predicate StartsWith(s: string, prefix: string) {
    |prefix| <= |s| && s[..|prefix|] == prefix
  }

  /** The end of the longest run of `\s` characters that starts at `i`. */
  function SpanSpace(s: string, i: nat): (j: nat)
    requires i <= |s|
    ensures i <= j <= |s|
    ensures AllSpace(s[i..j])
    ensures j == |s| || !IsSpace(s[j])
    decreases |s| - i
  {
    if i == |s| || !IsSpace(s[i]) then i
    else
      var j := SpanSpace(s, i + 1);
      assert s[i..j] == [s[i]] + s[i + 1..j];
      j
  }

  lemma AppendAssoc(a: string, b: string, c: string)
    ensures a + b + c == a + (b + c)
  {
  }

  /** A run of `\s` ending at a non-blank (or at the end) is the run `SpanSpace` finds. */
  lemma SpanSpaceIs(s: string, i: nat, j: nat)
    requires i <= j <= |s| && AllSpace(s[i..j]) && (j == |s| || !IsSpace(s[j]))
    ensures SpanSpace(s, i) == j
  {
  }

  /** A run of name characters ending at a non-name character is the run `SpanName` finds. */
  lemma {:induction false} SpanNameIs(s: string, i: nat, j: nat)
    requires i <= j <= |s| && (forall k | i <= k < j :: IsNameChar(s[k]))
    requires j == |s| || !IsNameChar(s[j])
    ensures SpanName(s, i) == j
    decreases |s| - i
  {
    if i < j {
      SpanNameIs(s, i + 1, j);
    }
  }

  /** The end of the longest run of header-name characters that starts at `i`. */
  function SpanName(s: string, i: nat): (j: nat)
    requires i <= |s|
    ensures i <= j <= |s|
    ensures forall k | i <= k < j :: IsNameChar(s[k])
    ensures j == |s| || !IsNameChar(s[j])
    decreases |s| - i
  {
    if i == |s| || !IsNameChar(s[i]) then i else SpanName(s, i + 1)
  }

  function LowerChar(c: char): char {
    if 'A' <= c <= 'Z' then (c as int + 32) as char else c
  }

  /** `String#downcase` restricted to ASCII, which is all a header name holds. */
  function Lower(s: string): (r: string)
    ensures |r| == |s|
    ensures forall k | 0 <= k < |s| :: r[k] == LowerChar(s[k])
  {
    if s == [] then [] else [LowerChar(s[0])] + Lower(s[1..])
  }

  /** The position of the first line feed in `s` at or after `i`, or `|s|`. */
  function NextNewline(s: string, i: nat): (j: nat)
    requires i <= |s|
    ensures i <= j <= |s|
    ensures NoNewline(s[i..j])
    ensures j < |s| ==> s[j] == '\n'
    decreases |s| - i
  {
    if i == |s| || s[i] == '\n' then i
    else
      var j := NextNewline(s, i + 1);
      assert s[i..j] == [s[i]] + s[i + 1..j];
      j
  }

  /** Every field between line feeds, the empty ones included. */
  function SplitFields(s: string): (r: seq<string>)
    ensures |r| > 0
    ensures forall k | 0 <= k < |r| :: NoNewline(r[k])
    decreases |s|
  {
    var j := NextNewline(s, 0);
    if j == |s| then [s] else [s[..j]] + SplitFields(s[j + 1..])
  }

  /** Fields glued back together with a line feed between neighbours. */
  function JoinLines(fields: seq<string>): string
    decreases |fields|
  {
    if |fields| == 0 then ""
    else if |fields| == 1 then fields[0]
    else fields[0] + "\n" + JoinLines(fields[1..])
  }

  /** Splitting at every line feed loses nothing: the fields rebuild the text. */
  lemma {:induction false} SplitFieldsJoin(s: string)
    ensures JoinLines(SplitFields(s)) == s
    decreases |s|
  {
    var j := NextNewline(s, 0);
    if j < |s| {
      SplitFieldsJoin(s[j + 1..]);
      assert s == s[..j] + "\n" + s[j + 1..];
    }
  }

  /** Drops the empty fields at the end, as Ruby's `split` does. */
  function DropTrailingEmpty(fields: seq<string>): (r: seq<string>)
    ensures |r| <= |fields| && r == fields[..|r|]
    ensures |r| > 0 ==> r[|r| - 1] != ""
    ensures forall k | |r| <= k < |fields| :: fields[k] == ""
    decreases |fields|
  {
    if |fields| == 0 then []
    else if fields[|fields| - 1] == "" then DropTrailingEmpty(fields[..|fields| - 1])
    else fields
  }

  /**
   * `s.split("\n")`: the fields between line feeds, without the empty
   * fields at the end (so "" and "\n\n" give no lines at all).
   */
  function SplitLines(s: string): (lines: seq<string>)
    ensures forall k | 0 <= k < |lines| :: NoNewline(lines[k])
    ensures |lines| > 0 ==> lines[|lines| - 1] != ""
    ensures |lines| <= |SplitFields(s)| && lines == SplitFields(s)[..|lines|]
    ensures forall k | |lines| <= k < |SplitFields(s)| :: SplitFields(s)[k] == ""
  {
    DropTrailingEmpty(SplitFields(s))
  }
}
