/**
 * The regular expressions of lib/sisimai/mta/exchange.rb written out as
 * predicates and extractors over strings.  Each one follows Ruby's
 * backtracking semantics for the pattern it names: `\A` anchors at the start,
 * `\z` at the very end, `.` matches anything but a line feed.
 */
module Patterns {
  import opened Wrappers
  import opened Text
  import opened Collaborators

  // ---------------------------------------------------------------- Re0

  predicate IsVersionChar(c: char) { IsDigit(c) || c == '.' }

  /** `[\d.]+` covering the whole of `s`. */
  predicate IsVersion(s: string) {
    |s| > 0 && forall k | 0 <= k < |s| :: IsVersionChar(s[k])
  }

  const ImsBanner := "Internet Mail Service ("
  const ConnectorBanner := "Microsoft Exchange Server Internet Mail Connector"

  /**
   * `Re0[:'x-mailer']`:
   * `\A(?:Internet Mail Service [(][\d.]+[)]\z|Microsoft Exchange Server Internet Mail Connector)`.
   */
  predicate IsXMailerBanner(s: string) {
    || (StartsWith(s, ImsBanner) && |s| > |ImsBanner| + 1 && s[|s| - 1] == ')'
        && IsVersion(s[|ImsBanner|..|s| - 1]))
    || StartsWith(s, ConnectorBanner)
  }

  /** `Re0[:'x-mimeole']`: `\AProduced By Microsoft Exchange`. */
  predicate IsMimeOleBanner(s: string) {
    StartsWith(s, "Produced By Microsoft Exchange")
  }

  /** `[\d.]+[)]` at the start of `s`. */
  predicate VersionThenParen(s: string)
    decreases |s|
  {
    |s| >= 2 && IsVersionChar(s[0]) && (s[1] == ')' || VersionThenParen(s[1..]))
  }

  const ImsWith := " with Internet Mail Service ("

  /** ` with Internet Mail Service [(][\d.]+[)]` at the start of `s`. */
  predicate ImsTail(s: string) {
    StartsWith(s, ImsWith) && VersionThenParen(s[|ImsWith|..])
  }

  /** `.+ with Internet Mail Service [(][\d.]+[)]` at the start of `s`. */
  predicate HostThenIms(s: string)
    decreases |s|
  {
    |s| > 0 && s[0] != '\n' && (ImsTail(s[1..]) || HostThenIms(s[1..]))
  }

  /** `Re0[:'received']`: `\Aby .+ with Internet Mail Service [(][\d.]+[)]`. */
  predicate IsImsReceived(s: string) {
    StartsWith(s, "by ") && HostThenIms(s[3..])
  }

  /** The keys of a Ruby hash: `:'x-mailer'` is a Symbol, `'x-mailer'` a String. */
  datatype HashKey = Symbol(name: string) | Str(name: string)

  datatype HeaderPattern = XMailerPattern | XMimeOlePattern | ReceivedPattern

  /** `Re0`, whose keys are all Symbols; it is also what the `pattern` accessor returns. */
  const Re0: map<HashKey, HeaderPattern> := map[
    Symbol("x-mailer") := XMailerPattern,
    Symbol("x-mimeole") := XMimeOlePattern,
    Symbol("received") := ReceivedPattern]

  /**
   * `Re0[key]`: nil when the key is absent.  Only the three Symbol keys find
   * a pattern, so no String key does (which is why line 95 never matches).
   */
  function Re0At(key: HashKey): (p: Option<HeaderPattern>)
    ensures key.Str? ==> p.None?
    ensures p == Some(XMailerPattern) <==> key == Symbol("x-mailer")
    ensures p == Some(XMimeOlePattern) <==> key == Symbol("x-mimeole")
    ensures p == Some(ReceivedPattern) <==> key == Symbol("received")
  {
    if key in Re0 then Some(Re0[key]) else None
  }

  /** `s =~ pattern`; `s =~ nil` calls `nil =~ s`, which is nil, so it never matches. */
  predicate MatchesPattern(s: string, pattern: Option<HeaderPattern>) {
    match pattern
    case None => false
    case Some(XMailerPattern) => IsXMailerBanner(s)
    case Some(XMimeOlePattern) => IsMimeOleBanner(s)
    case Some(ReceivedPattern) => IsImsReceived(s)
  }

  // ---------------------------------------------------------------- Re1

  /** `Re1[:begin]`: `\AYour message`. */
  predicate IsBeginMarker(e: string) { StartsWith(e, "Your message") }

  /** `Re1[:rfc822]`: `\AContent-Type: message/rfc822`. */
  predicate IsRfc822Marker(e: string) { StartsWith(e, "Content-Type: message/rfc822") }

  // ------------------------------------------------ patterns written inline

  /**
   * `\A([-0-9A-Za-z]+?)[:][ ]*.+\z`: the header name of a `Name: value` line.
   * The lazy name can only end at the first `:`, so it is the leading run of
   * name characters, and what follows the colon must be non-empty.
   */
  function HeaderName(e: string): (name: Option<string>)
    ensures name.Some? ==> 0 < |name.value| < |e| && e[..|name.value|] == name.value
    ensures name.Some? ==> e[|name.value|] == ':'
    ensures name.Some? ==> forall k | 0 <= k < |name.value| :: IsNameChar(name.value[k])
    ensures name.Some? ==> |name.value| + 1 < |e| && NoNewline(e[|name.value| + 1..])
  {
    var k := SpanName(e, 0);
    if 0 < k && k + 1 < |e| && e[k] == ':' && NoNewline(e[k + 1..]) then Some(e[..k]) else None
  }

  /** A `Name:value` line yields its name, for every name of name characters and non-empty value. */
  lemma HeaderNameOf(name: string, value: string)
    requires |name| > 0 && forall k | 0 <= k < |name| :: IsNameChar(name[k])
    requires |value| > 0 && NoNewline(value)
    ensures HeaderName(name + ":" + value) == Some(name)
  {
    var e := name + ":" + value;
    assert e[|name|] == ':';
    SpanNameIs(e, 0, |name|);
    assert e[|name| + 1..] == value;
    assert e[..|name|] == name;
  }

  /** `\A\s+`. */
  predicate StartsWithSpace(e: string) { |e| > 0 && IsSpace(e[0]) }

  /**
   * `\s+(.+)\z` at the start of `t`.  The greedy `\s+` takes the whole run of
   * blanks unless nothing would remain for `.+`; then it gives back one.
   */
  function SpacedValue(t: string): (v: Option<Capture>)
    ensures v.Some? ==> NoNewline(v.value) && 0 < |v.value| < |t| && t[|t| - |v.value|..] == v.value
    ensures v.Some? ==> AllSpace(t[..|t| - |v.value|])
    ensures v.Some? && !AllSpace(t) ==> !IsSpace(v.value[0])
  {
    var w := SpanSpace(t, 0);
    if w == 0 then None
    else if w < |t| then (if NoNewline(t[w..]) then Some(t[w..]) else None)
    else if w >= 2 && t[|t| - 1] != '\n' then Some(t[|t| - 1..])
    else None
  }

  /** `\A\s+<label>\s+(.+)\z`: lines 232 (`To:`) and 238 (`Subject:`). */
  function IndentedField(e: string, tag: string): (v: Option<Capture>)
    requires |tag| > 0 && !IsSpace(tag[0])
  {
    var a := SpanSpace(e, 0);
    if a == 0 || !StartsWith(e[a..], tag) then None else SpacedValue(e[a + |tag|..])
  }

  /** `\AMSEXCH:.+`, the test on the collected diagnosis (line 211). */
  predicate IsMsexchText(d: string) {
    StartsWith(d, "MSEXCH:") && |d| > 7 && d[7] != '\n'
  }

  /** `\A\s+(MSEXCH:.+)\z` (line 204): the vendor text after the indentation. */
  function MsexchLine(e: string): (c: Option<Capture>)
    ensures c.Some? ==> IsMsexchText(c.value) && NoNewline(c.value)
    ensures c.Some? ==> |c.value| < |e| && e[|e| - |c.value|..] == c.value
    ensures c.Some? ==> AllSpace(e[..|e| - |c.value|])
  {
    var a := SpanSpace(e, 0);
    if a > 0 && StartsWith(e[a..], "MSEXCH:") && |e| > a + 7 && NoNewline(e[a + 7..])
    then
      assert e[a..] == e[a..a + 7] + e[a + 7..];
      Some(e[a..])
    else None
  }

  /** An indented vendor line `<indent>MSEXCH:<text>` yields the text from `MSEXCH:` on. */
  lemma MsexchLineOf(indent: string, text: string)
    requires |indent| > 0 && AllSpace(indent) && |text| > 0 && NoNewline(text)
    ensures MsexchLine(indent + "MSEXCH:" + text) == Some("MSEXCH:" + text)
  {
    var rest := "MSEXCH:" + text;
    var e := indent + rest;
    AppendAssoc(indent, "MSEXCH:", text);
    SpanOverPrefix(indent, rest);
    assert rest[..7] == "MSEXCH:";
    assert e[|indent| + 7..] == text;
  }

  // ---------------------------------------- the code pattern of line 270

  /**
   * `.+\s*` covering `s[7..p]`: a non-empty stretch without line feeds,
   * then nothing but `\s` up to `p` (the `(` of the code).
   */
  predicate BeforeParen(s: string, p: int)
    requires 7 <= p <= |s|
  {
    var n := NextNewline(s[..p], 7);
    n > 7 && AllSpace(s[n..p])
  }

  /** `\s*(.*)\z` over `t`: the text left once the leading blanks are skipped. */
  function TrailingText(t: string): (m: Option<string>)
    ensures m.Some? ==> NoNewline(m.value) && (m.value == "" || !IsSpace(m.value[0]))
  {
    var m := t[SpanSpace(t, 0)..];
    if NoNewline(m) then Some(m) else None
  }

  /**
   * `\AMSEXCH:.+\s*[(]([0-9A-F]{8})[)]\s*(.*)\z` can match with its `(` at
   * position `p` of `s`.
   */
  predicate CodeAt(s: string, p: int) {
    && StartsWith(s, "MSEXCH:") && 8 <= p && p + 10 <= |s|
    && BeforeParen(s, p)
    && s[p] == '(' && IsHexCode(s[p + 1..p + 9]) && s[p + 9] == ')'
    && TrailingText(s[p + 10..]).Some?
  }

  /** The two captures: the eight-digit code and the message after it. */
  datatype CodedText = CodedText(code: string, message: string)

  function CapturesAt(s: string, p: int): (c: CodedText)
    requires CodeAt(s, p)
    ensures IsHexCode(c.code) && NoNewline(c.message)
  {
    CodedText(s[p + 1..p + 9], TrailingText(s[p + 10..]).value)
  }

  /** The largest position at or below `p` where the code pattern can match. */
  function LastCodeAt(s: string, p: int): (r: Option<int>)
    requires p <= |s|
    ensures r.Some? ==> r.value <= p && CodeAt(s, r.value)
    ensures forall q | q <= p && (r.Some? ==> r.value < q) :: !CodeAt(s, q)
    decreases p
  {
    if p < 8 then None
    else if CodeAt(s, p) then Some(p)
    else LastCodeAt(s, p - 1)
  }

  /**
   * The captures of line 270's match.  Its greedy `.+` makes the match
   * settle on the last `(` at which the rest of the pattern succeeds.
   */
  function ExtractCode(s: string): (r: Option<CodedText>)
    ensures r.None? <==> forall p :: !CodeAt(s, p)
    ensures r.Some? ==> exists p :: CodeAt(s, p) && r.value == CapturesAt(s, p)
                                    && forall q :: p < q ==> !CodeAt(s, q)
  {
    match LastCodeAt(s, |s|)
    case None => None
    case Some(p) => Some(CapturesAt(s, p))
  }

  // ---------------------------------------------- lemmas about the patterns

  /** A banner as Internet Mail Service writes it is recognised by `Re0[:'x-mailer']`. */
  lemma ImsXMailerRecognised(version: string)
    requires IsVersion(version)
    ensures IsXMailerBanner(ImsBanner + version + ")")
  {
    var s := ImsBanner + version + ")";
    assert s[..|ImsBanner|] == ImsBanner;
    assert s[|ImsBanner|..|s| - 1] == version;
  }

  /** `HostThenIms` holds on a host name followed by a complete IMS tail. */
  lemma {:induction false} HostThenImsOf(host: string, tail: string)
    requires |host| > 0 && NoNewline(host) && ImsTail(tail)
    ensures HostThenIms(host + tail)
    decreases |host|
  {
    var s := host + tail;
    assert s[0] == host[0];
    if |host| == 1 {
      assert s[1..] == tail;
    } else {
      assert s[1..] == host[1..] + tail;
      HostThenImsOf(host[1..], tail);
    }
  }

  lemma {:induction false} VersionThenParenOf(version: string, rest: string)
    requires IsVersion(version)
    ensures VersionThenParen(version + ")" + rest)
    decreases |version|
  {
    var s := version + ")" + rest;
    if |version| > 1 {
      assert s[1..] == version[1..] + ")" + rest;
      VersionThenParenOf(version[1..], rest);
    }
  }

  /** A Received header that Internet Mail Service writes is recognised by `Re0[:'received']`. */
  lemma ImsReceivedRecognised(host: string, version: string, rest: string)
    requires |host| > 0 && NoNewline(host) && IsVersion(version)
    ensures IsImsReceived("by " + host + ImsWith + version + ")" + rest)
  {
    var v := version + ")" + rest;
    var tail := ImsWith + v;
    assert tail[..|ImsWith|] == ImsWith;
    assert tail[|ImsWith|..] == v;
    VersionThenParenOf(version, rest);
    HostThenImsOf(host, tail);
    var s := "by " + (host + tail);
    assert s[..3] == "by " && s[3..] == host + tail;
    AppendAssoc("by " + host + ImsWith, version + ")", rest);
    AppendAssoc("by " + host + ImsWith, version, ")");
    AppendAssoc("by " + host, ImsWith, v);
    AppendAssoc("by ", host, tail);
  }

  /** When the pattern matches at `p` and no `(` follows, the match is the one at `p`. */
  lemma LastMatchIs(s: string, p: int)
    requires CodeAt(s, p)
    requires forall q | p < q < |s| :: s[q] != '('
    ensures ExtractCode(s) == Some(CapturesAt(s, p))
  {
    var r := LastCodeAt(s, |s|);
    assert r.Some? && p <= r.value;
    assert r == Some(p);
  }

  /** `.+\s*` covers `s[7..p]` when `s[7..p]` is a line-feed-free text and a blank. */
  lemma BeforeParenOf(s: string, p: int)
    requires 9 <= p <= |s| && NoNewline(s[7..p])
    ensures BeforeParen(s, p)
  {
    assert s[..p][7..] == s[7..p];
  }

  /** The blank run at the start of `<pre><rest>` is `pre` when `rest` starts with a non-blank. */
  lemma SpanOverPrefix(pre: string, rest: string)
    requires AllSpace(pre) && |rest| > 0 && !IsSpace(rest[0])
    ensures SpanSpace(pre + rest, 0) == |pre| && (pre + rest)[|pre|..] == rest
  {
    var t := pre + rest;
    assert t[..|pre|] == pre;
    assert t[|pre|] == rest[0];
    assert t[|pre|..] == rest;
    SpanSpaceIs(t, 0, |pre|);
  }

  /** `\s+(.+)\z` over `<pad><value>` captures the value when it starts with a non-blank. */
  lemma SpacedValueOf(pad: string, value: string)
    requires |pad| > 0 && AllSpace(pad)
    requires |value| > 0 && !IsSpace(value[0]) && NoNewline(value)
    ensures SpacedValue(pad + value) == Some(value)
  {
    SpanOverPrefix(pad, value);
  }

  /**
   * An echo line `<indent><tag><pad><value>` yields its value, when the
   * indent and the pad are blanks and the value starts with a non-blank.
   */
  lemma IndentedFieldOf(indent: string, tag: string, pad: string, value: string)
    requires |tag| > 0 && !IsSpace(tag[0])
    requires |indent| > 0 && AllSpace(indent) && |pad| > 0 && AllSpace(pad)
    requires |value| > 0 && !IsSpace(value[0]) && NoNewline(value)
    ensures IndentedField(indent + tag + pad + value, tag) == Some(value)
  {
    var rest := tag + (pad + value);
    var e := indent + rest;
    AppendAssoc(indent + tag, pad, value);
    AppendAssoc(indent, tag, pad + value);
    SpanOverPrefix(indent, rest);
    assert rest[..|tag|] == tag;
    assert e[|indent| + |tag|..] == rest[|tag|..];
    assert rest[|tag|..] == pad + value;
    SpacedValueOf(pad, value);
  }

  /** The vendor line `MSEXCH:<text> (<code>) <message>`, laid out piece by piece. */
  function VendorLine(text: string, code: string, message: string): string {
    "MSEXCH:" + text + " (" + code + ") " + message
  }

  lemma VendorLineLayout(text: string, code: string, message: string, s: string, p: int)
    requires |code| == 8 && s == VendorLine(text, code, message) && p == 8 + |text|
    ensures |s| == p + 11 + |message|
    ensures s[..7] == "MSEXCH:" && s[7..p] == text + " "
    ensures s[p] == '(' && s[p + 1..p + 9] == code && s[p + 9] == ')'
    ensures s[p + 10..] == " " + message
  {
    var a := "MSEXCH:" + text;
    var b := a + " (";
    var c := b + code;
    var d := c + ") ";
    assert s == d + message;
    assert b[p] == '(' && b[..7] == "MSEXCH:" && b[7..p] == text + " ";
    assert c[p + 1..] == code;
    assert d[p + 9] == ')' && d[p + 10..] == " ";
    assert s[..p + 1] == b[..p + 1];
    assert s[p + 1..p + 9] == c[p + 1..];
    assert s[p + 10..] == d[p + 10..] + message;
  }

  /**
   * The code pattern recovers the code and the message of a vendor line
   * `MSEXCH:<text> (<code>) <message>` whose message holds no `(`.
   */
  lemma ExtractCodeOf(text: string, code: string, message: string)
    requires |text| > 0 && NoNewline(text)
    requires IsHexCode(code)
    requires NoNewline(message) && '(' !in message
    requires message == "" || !IsSpace(message[0])
    ensures ExtractCode(VendorLine(text, code, message)) == Some(CodedText(code, message))
  {
    var s, p := VendorLine(text, code, message), 8 + |text|;
    VendorLineLayout(text, code, message, s, p);
    assert NoNewline(s[7..p]) by {
      assert s[7..p] == text + " ";
    }
    BeforeParenOf(s, p);
    var t := s[p + 10..];
    assert SpanSpace(t, 0) == 1;
    assert t[1..] == message;
    assert CodeAt(s, p);
    forall q | p < q < |s|
      ensures s[q] != '('
    {
      if q < p + 9 {
        assert s[q] == s[p + 1..p + 9][q - p - 1];
      } else if q > p + 10 {
        assert s[q] == t[q - p - 10];
      }
    }
    LastMatchIs(s, p);
  }
}
