/** The suggestion flow of `src/extension.ts`: `parseSuggestions`, the
    `parseInt` it applies to the line number, the line clamp and comment block
    of `applySuggestionsAsComments`, and the message trace of
    `executeCodeGeneration`. */
module Suggestions {

  import opened Wrappers
  import opened Strings
  import opened Parsing

  // ---------------------------------------------------------------------------
  // parseInt (ECMAScript `parseInt(string)` with no radix)

  /** A number as `parseInt` produces it: an integer or `NaN`. A `-0` result
      is `Num(0)`; both are falsy and below 1, which is all the clamp asks. */
  datatype JsNumber = NaN | Num(value: int)

  predicate IsHexDigit(c: char) {
    IsDigit(c) || 'a' <= c <= 'f' || 'A' <= c <= 'F'
  }

  /** A digit of radix 10 or 16. */
  predicate DigitIn(c: char, radix: nat) {
    if radix == 16 then IsHexDigit(c) else IsDigit(c)
  }

  function HexDigitValue(c: char): (v: nat)
    requires IsHexDigit(c)
    ensures v < 16
    ensures IsDigit(c) ==> v == DigitValue(c)
  {
    if IsDigit(c) then DigitValue(c)
    else if 'a' <= c <= 'f' then c as int - 'a' as int + 10
    else c as int - 'A' as int + 10
  }

  /** The value of a digit string in `radix`, most significant digit first. */
  function RunValue(s: string, radix: nat): nat
    requires radix == 10 || radix == 16
    requires forall i :: 0 <= i < |s| ==> DigitIn(s[i], radix)
    decreases |s|
  {
    if |s| == 0 then 0
    else
      var c := s[|s| - 1];
      assert DigitIn(c, radix);
      radix * RunValue(s[..|s| - 1], radix) + HexDigitValue(c)
  }

  /** In radix 10 the run value is the decimal value. */
  lemma {:induction false} RunValueDecimal(s: string)
    requires AllDigits(s)
    ensures RunValue(s, 10) == DecimalValue(s)
    decreases |s|
  {
    if |s| > 0 {
      RunValueDecimal(s[..|s| - 1]);
    }
  }

  /** `parseInt(s)`: skip leading whitespace and take an optional sign; the
      rest is read by `ParseUnsigned`. */
  function ParseInt(s: string): (r: JsNumber)
    ensures AllSpace(s) ==> r == NaN
  {
    var i := SkipSpaces(s, 0);
    if i < |s| && s[i] == '-' then ParseUnsigned(s, i + 1, true)
    else if i < |s| && s[i] == '+' then ParseUnsigned(s, i + 1, false)
    else ParseUnsigned(s, i, false)
  }

  /** The digits of `parseInt` from `j` on: a `0x`/`0X` prefix switches to
      radix 16; the longest run of digits of the radix is the value, and no
      digit at all (`"0x"` alone included) is `NaN`. */
  function ParseUnsigned(s: string, j: nat, negative: bool): (r: JsNumber)
    requires j <= |s|
    ensures r.Num? ==> j < |s| && IsDigit(s[j])
  {
    var hex := j + 2 <= |s| && s[j] == '0' && (s[j + 1] == 'x' || s[j + 1] == 'X');
    var radix := if hex then 16 else 10;
    var k := if hex then j + 2 else j;
    var e := DigitRunEnd(s, k, radix);
    if e == k then NaN
    else
      var v: int := RunValue(s[k..e], radix);
      Num(if negative then -v else v)
  }

  /** End of the run of radix digits that starts at `k`. */
  function DigitRunEnd(s: string, k: nat, radix: nat): (e: nat)
    requires k <= |s|
    ensures k <= e <= |s|
    ensures forall i :: k <= i < e ==> DigitIn(s[i], radix)
    ensures e == |s| || !DigitIn(s[e], radix)
    decreases |s| - k
  {
    if k < |s| && DigitIn(s[k], radix) then DigitRunEnd(s, k + 1, radix) else k
  }

  /** A run of digits that stops at `e` ends at `e`. */
  lemma {:induction false} DigitRunEndAt(s: string, k: nat, e: nat, radix: nat)
    requires k <= e <= |s|
    requires forall i :: k <= i < e ==> DigitIn(s[i], radix)
    requires e == |s| || !DigitIn(s[e], radix)
    ensures DigitRunEnd(s, k, radix) == e
    decreases e - k
  {
    if k < e {
      DigitRunEndAt(s, k + 1, e, radix);
    }
  }

  /** A decimal digit run from `j` to `e`, not followed by a letter or a
      digit, is read as its decimal value. */
  lemma ParseUnsignedDecimal(s: string, j: nat, e: nat, negative: bool)
    requires j < e <= |s| && AllDigits(s[j..e])
    requires e == |s| || !IsAlnum(s[e])
    ensures ParseUnsigned(s, j, negative) ==
      Num(if negative then -(DecimalValue(s[j..e]) as int) else DecimalValue(s[j..e]))
  {
    NoHexPrefix(s, j, e);
    DecimalRunEnd(s, j, e);
    RunValueDecimal(s[j..e]);
  }

  /** A digit run from `j` to `e` that is not followed by a letter does not
      start with `0x`. */
  lemma NoHexPrefix(s: string, j: nat, e: nat)
    requires j < e <= |s| && AllDigits(s[j..e])
    requires e == |s| || !IsAlnum(s[e])
    ensures !(j + 2 <= |s| && s[j] == '0' && (s[j + 1] == 'x' || s[j + 1] == 'X'))
  {
    var d := s[j..e];
    assert s[j] == d[0];
    if j + 1 < e { assert s[j + 1] == d[1]; }
  }

  lemma DecimalRunEnd(s: string, j: nat, e: nat)
    requires j <= e <= |s| && AllDigits(s[j..e])
    requires e == |s| || !IsAlnum(s[e])
    ensures DigitRunEnd(s, j, 10) == e
  {
    var d := s[j..e];
    forall k | j <= k < e ensures DigitIn(s[k], 10) {
      assert s[k] == d[k - j];
    }
    DigitRunEndAt(s, j, e, 10);
  }

  /** `parseInt` reads back a rendered number that follows whitespace and an
      optional sign and is followed by anything that is not a letter or a
      digit. */
  lemma ParseIntRoundTrip(pre: string, negative: bool, n: nat, tail: string)
    requires AllSpace(pre)
    requires |tail| == 0 || !IsAlnum(tail[0])
    ensures ParseInt(pre + (if negative then "-" else "") + NatToString(n) + tail) ==
      Num(if negative then -(n as int) else n)
  {
    var sign: string := if negative then "-" else "";
    var digits := NatToString(n);
    var s := pre + sign + digits + tail;
    var i := |pre|;
    var j := i + |sign|;
    var e := j + |digits|;
    assert s[j..e] == digits;
    if e < |s| {
      assert s[e] == tail[0];
    }
    assert s[i] == (sign + digits)[0];
    assert SkipSpaces(s, 0) == i by { SpanFrom(s, 0, i, IsSpace); }
    ParseIntAtSign(s, i, j, negative);
    ParseUnsignedDecimal(s, j, e, negative);
    NatToStringRoundTrip(n);
  }

  /** After the whitespace, a minus sign makes the number negative and a
      digit starts it unsigned. */
  lemma ParseIntAtSign(s: string, i: nat, j: nat, negative: bool)
    requires i < |s| && SkipSpaces(s, 0) == i
    requires negative ==> s[i] == '-' && j == i + 1
    requires !negative ==> IsDigit(s[i]) && j == i
    ensures ParseInt(s) == ParseUnsigned(s, j, negative)
  {
  }

  // ---------------------------------------------------------------------------
  // parseSuggestions

  const SuggestionStart: string := "SUGGESTION_START"
  const SuggestionEnd: string := "SUGGESTION_END"

  datatype Suggestion = Suggestion(oldCode: string, newCode: string, lineNumber: JsNumber, explanation: string)

  /** The bodies `matchAll(/SUGGESTION_START([\s\S]*?)SUGGESTION_END/g)`
      captures: each match starts at the first start marker after the end of
      the previous match. When a start marker has no end marker after it, no
      later one has either, so the scan stops. */
  function SuggestionBodies(s: string): (r: seq<string>)
    ensures r == [] <==> !HasMarkerPair(s, SuggestionStart, SuggestionEnd)
    ensures HasMarkerPair(s, SuggestionStart, SuggestionEnd) ==>
      r[0] == MarkerBody(s, SuggestionStart, SuggestionEnd).value
    decreases |s|
  {
    match FirstPair(s, SuggestionStart, SuggestionEnd)
    case None => []
    case Some((p, q)) =>
      [s[p + |SuggestionStart|..q]] + SuggestionBodies(s[q + |SuggestionEnd|..])
  }

  /** Blocks written back to back, each wrapped in its markers. */
  function RenderBlocks(bodies: seq<string>): string
    decreases |bodies|
  {
    if |bodies| == 0 then "" else SuggestionStart + bodies[0] + SuggestionEnd + RenderBlocks(bodies[1..])
  }

  /** The end marker does not start inside the body. */
  predicate EndsCleanly(body: string) {
    forall k :: 0 <= k < |body| ==> !OccursAt(body + SuggestionEnd, SuggestionEnd, k)
  }

  /** Every block comes back, in textual order, as long as no body holds the
      start of an end marker. */
  lemma {:induction false} SuggestionBodiesRoundTrip(bodies: seq<string>)
    requires forall i :: 0 <= i < |bodies| ==> EndsCleanly(bodies[i])
    ensures SuggestionBodies(RenderBlocks(bodies)) == bodies
    decreases |bodies|
  {
    if |bodies| > 0 {
      var first := bodies[0];
      var tail := bodies[1..];
      assert bodies == [first] + tail;
      FirstBlockOf(first, tail);
      SuggestionBodiesRoundTrip(tail);
    }
  }

  lemma FirstBlockOf(first: string, tail: seq<string>)
    requires EndsCleanly(first)
    ensures SuggestionBodies(RenderBlocks([first] + tail)) == [first] + SuggestionBodies(RenderBlocks(tail))
  {
    var rest := RenderBlocks(tail);
    assert ([first] + tail)[1..] == tail;
    assert RenderBlocks([first] + tail) == SuggestionStart + first + SuggestionEnd + rest;
    FirstBlockRead(first, rest);
  }

  /** The first block's body is read, and the scan goes on after its end
      marker. */
  lemma FirstBlockRead(body: string, rest: string)
    requires EndsCleanly(body)
    ensures SuggestionBodies(SuggestionStart + body + SuggestionEnd + rest) == [body] + SuggestionBodies(rest)
  {
    var s := SuggestionStart + body + SuggestionEnd + rest;
    MarkerBodyRoundTrip(SuggestionStart, body, SuggestionEnd, rest);
    var q := |SuggestionStart| + |body|;
    assert s[|SuggestionStart|..q] == body;
    assert s[q + |SuggestionEnd|..] == rest;
  }

  /** One block's fields, each from its own `NAME:` section. */
  function ParseSuggestion(body: string): (r: Suggestion)
    ensures !Contains(body, "OLD_CODE:") ==> r.oldCode == ""
    ensures !Contains(body, "NEW_CODE:") ==> r.newCode == ""
    ensures !Contains(body, "LINE_NUMBER:") ==> r.lineNumber == NaN
    ensures !Contains(body, "EXPLANATION:") ==> r.explanation == ""
    ensures IsTrimmed(r.oldCode) && IsTrimmed(r.newCode) && IsTrimmed(r.explanation)
  {
    assert "OLD_CODE" + ":" == "OLD_CODE:" && "NEW_CODE" + ":" == "NEW_CODE:";
    assert "LINE_NUMBER" + ":" == "LINE_NUMBER:" && "EXPLANATION" + ":" == "EXPLANATION:";
    Suggestion(
      CleanCodeBlock(ExtractSection(body, "OLD_CODE")),
      CleanCodeBlock(ExtractSection(body, "NEW_CODE")),
      ParseInt(ExtractSection(body, "LINE_NUMBER")),
      ExtractSection(body, "EXPLANATION"))
  }

  /** `parseSuggestions(raw)`: one suggestion per block, in order. */
  function ParseSuggestions(raw: string): (r: seq<Suggestion>)
    ensures r == [] <==> !HasMarkerPair(raw, SuggestionStart, SuggestionEnd)
    ensures |r| == |SuggestionBodies(raw)|
    ensures forall i :: 0 <= i < |r| ==> r[i] == ParseSuggestion(SuggestionBodies(raw)[i])
  {
    var bodies := SuggestionBodies(raw);
    seq(|bodies|, i requires 0 <= i < |bodies| => ParseSuggestion(bodies[i]))
  }

  // ---------------------------------------------------------------------------
  // applySuggestionsAsComments

  /** The line clamp: a line number that is `NaN`, 0 or below 1 becomes 1. */
  function ClampLine(n: JsNumber): (r: int)
    ensures r >= 1
    ensures n.Num? && n.value >= 1 ==> r == n.value
    ensures !(n.Num? && n.value >= 1) ==> r == 1
  {
    match n
    case NaN => 1
    case Num(v) => if v == 0 || v < 1 then 1 else v
  }

  /** The zero-based line the comment is inserted at. */
  function InsertionLine(n: JsNumber): (r: nat)
    ensures r + 1 == ClampLine(n)
  {
    ClampLine(n) - 1
  }

  /** Clamping is idempotent: a clamped line number is left alone. */
  lemma ClampIdempotent(n: JsNumber)
    ensures ClampLine(Num(ClampLine(n))) == ClampLine(n)
  {
  }

  const CommentHeader: string := "// --- AI Suggestion ---"
  const OldCodeLabel: string := "// Old Code:"
  const NewCodeLabel: string := "// New Code:"
  const CommentFooter: string := "// --- End Suggestion ---"

  /** `.map((line) => "// " + line)`. */
  function CommentOut(lines: seq<string>): (r: seq<string>)
    ensures |r| == |lines|
    ensures forall i :: 0 <= i < |r| ==> r[i] == "// " + lines[i]
  {
    seq(|lines|, i requires 0 <= i < |lines| => "// " + lines[i])
  }

  /** Removing the `// ` that `CommentOut` added. */
  function Uncomment(lines: seq<string>): (r: seq<string>)
    requires forall i :: 0 <= i < |lines| ==> StartsWith(lines[i], "// ")
    ensures |r| == |lines|
    ensures forall i :: 0 <= i < |r| ==> lines[i] == "// " + r[i]
    decreases |lines|
  {
    if |lines| == 0 then []
    else
      var line := lines[0];
      assert StartsWith(line, "// ");
      assert line == line[..3] + line[3..];
      [line[3..]] + Uncomment(lines[1..])
  }

  /** The comment `applySuggestionsAsComments` builds for one suggestion,
      before the extra newline it inserts after it. */
  function CommentBlock(sg: Suggestion): string {
    Join([CommentHeader, OldCodeLabel] + CommentOut(Split(sg.oldCode, '\n')) + [NewCodeLabel]
      + CommentOut(Split(sg.newCode, '\n'))
      + ["// Explanation: " + sg.explanation, CommentFooter + "\n"], "\n")
  }

  /** The text inserted at the clamped line. */
  function InsertedText(sg: Suggestion): string {
    CommentBlock(sg) + "\n"
  }

  /** The explanation as it lands in the document: its first line after the
      "// Explanation: " label, its other lines as they are, without a
      comment marker. */
  function ExplanationLines(explanation: string): (r: seq<string>)
    ensures |r| == |Split(explanation, '\n')|
  {
    var pieces := Split(explanation, '\n');
    ["// Explanation: " + pieces[0]] + pieces[1..]
  }

  /** The lines of the inserted text: the header, the commented old code, the
      commented new code, the explanation's lines, the footer and two empty
      lines. */
  function CommentLines(sg: Suggestion): seq<string> {
    [CommentHeader, OldCodeLabel] + CommentOut(Split(sg.oldCode, '\n')) + [NewCodeLabel]
      + CommentOut(Split(sg.newCode, '\n'))
      + ExplanationLines(sg.explanation) + [CommentFooter, "", ""]
  }

  /** Commenting out the lines of some code and uncommenting them again gives
      the code back. */
  lemma CommentRoundTrip(code: string)
    ensures var c := CommentOut(Split(code, '\n'));
      (forall i :: 0 <= i < |c| ==> StartsWith(c[i], "// ")) &&
      Join(Uncomment(c), "\n") == code
  {
    var lines := Split(code, '\n');
    var c := CommentOut(lines);
    forall i | 0 <= i < |c| ensures StartsWith(c[i], "// ") {
      assert c[i][..3] == "// ";
    }
    assert Uncomment(c) == lines;
    JoinSplit(code, '\n');
  }

  lemma CommentedLackNewline(code: string)
    ensures NoneContains(CommentOut(Split(code, '\n')), '\n')
  {
    var lines := Split(code, '\n');
    SplitPiecesLackSeparator(code, '\n');
    var c := CommentOut(lines);
    forall i | 0 <= i < |c| ensures '\n' !in c[i] {
      assert c[i] == "// " + lines[i];
    }
  }

  /** Split on newlines, the inserted text is exactly `CommentLines`. */
  lemma InsertedTextLines(sg: Suggestion)
    ensures Split(InsertedText(sg), '\n') == CommentLines(sg)
  {
    var o := CommentOut(Split(sg.oldCode, '\n'));
    var n := CommentOut(Split(sg.newCode, '\n'));
    var front := [CommentHeader, OldCodeLabel] + o + [NewCodeLabel] + n;
    assert NoneContains(front, '\n') by {
      CommentedLackNewline(sg.oldCode);
      CommentedLackNewline(sg.newCode);
      assert NoneContains([CommentHeader, OldCodeLabel], '\n') && NoneContains([NewCodeLabel], '\n');
      NoneContainsConcat([CommentHeader, OldCodeLabel], o, '\n');
      NoneContainsConcat([CommentHeader, OldCodeLabel] + o, [NewCodeLabel], '\n');
      NoneContainsConcat([CommentHeader, OldCodeLabel] + o + [NewCodeLabel], n, '\n');
    }
    assert '\n' !in "// Explanation: " && '\n' !in CommentFooter;
    SplitBlock(front, "// Explanation: ", sg.explanation, CommentFooter);
  }

  /** Lines without breaks, a labelled text that may hold breaks, and a
      footer followed by two breaks, split back into their lines. */
  lemma SplitBlock(front: seq<string>, lead: string, text: string, footer: string)
    requires |front| >= 1 && NoneContains(front, '\n') && '\n' !in lead && '\n' !in footer
    ensures var pieces := Split(text, '\n');
      Split(Join(front + [lead + text, footer + "\n"], "\n") + "\n", '\n')
        == front + ([lead + pieces[0]] + pieces[1..]) + [footer, "", ""]
  {
    var e := lead + text;
    var rest := footer + "\n" + "\n";
    var whole := Join(front + [e, footer + "\n"], "\n") + "\n";
    assert whole == Join(front, "\n") + "\n" + (e + "\n" + rest) by {
      assert front + [e, footer + "\n"] == front + [e] + [footer + "\n"];
      JoinSnoc(front, e, "\n");
      JoinSnoc(front + [e], footer + "\n", "\n");
    }
    assert Split(whole, '\n') == front + Split(e + "\n" + rest, '\n') by {
      assert [('\n')] == "\n";
      SplitAppend(Join(front, "\n"), '\n', e + "\n" + rest);
      SplitJoin(front, '\n');
    }
    assert Split(e + "\n" + rest, '\n') == Split(e, '\n') + [footer, "", ""] by {
      assert e + "\n" + rest == e + ['\n'] + rest;
      SplitAppend(e, '\n', rest);
      LineThenTwoBreaks(footer);
    }
    SplitAfterPrefix(lead, text, '\n');
  }

  /** A line and the two line breaks after it. */
  lemma LineThenTwoBreaks(t: string)
    requires '\n' !in t
    ensures Split(t + "\n" + "\n", '\n') == [t, "", ""]
  {
    SplitAppend(t, '\n', "\n");
    SplitNoSeparator(t, '\n');
    SplitAppend("", '\n', "");
    assert "" + ['\n'] + "" == "\n";
    assert t + "\n" + "\n" == t + ['\n'] + "\n";
  }

  /** Where each part of the inserted comment lands once the text is split on
      newlines: the fixed lines at fixed places, the commented-out old and new
      code between the labels, then the explanation's lines and the footer. */
  lemma CommentBlockLayout(sg: Suggestion)
    ensures var lines := Split(InsertedText(sg), '\n');
      var a := |Split(sg.oldCode, '\n')|;
      var b := |Split(sg.newCode, '\n')|;
      var c := |Split(sg.explanation, '\n')|;
      && |lines| == a + b + c + 6
      && lines[0] == CommentHeader && lines[1] == OldCodeLabel && lines[2 + a] == NewCodeLabel
      && lines[2..2 + a] == CommentOut(Split(sg.oldCode, '\n'))
      && lines[3 + a..3 + a + b] == CommentOut(Split(sg.newCode, '\n'))
      && lines[3 + a + b..3 + a + b + c] == ExplanationLines(sg.explanation)
      && lines[3 + a + b + c..] == [CommentFooter, "", ""]
  {
    InsertedTextLines(sg);
    Layout(CommentHeader, OldCodeLabel, CommentOut(Split(sg.oldCode, '\n')), NewCodeLabel,
      CommentOut(Split(sg.newCode, '\n')), ExplanationLines(sg.explanation), [CommentFooter, "", ""],
      |Split(sg.oldCode, '\n')|, |Split(sg.newCode, '\n')|);
  }

  /** Reading the inserted comment back: every line between the labels is
      commented out, and those lines, uncommented and joined, are the old and
      the new code, in that order. */
  lemma CommentBlockRecoversCode(sg: Suggestion)
    ensures var lines := Split(InsertedText(sg), '\n');
      var a := |Split(sg.oldCode, '\n')|;
      var b := |Split(sg.newCode, '\n')|;
      && 3 + a + b <= |lines|
      && (forall i :: 2 <= i < 2 + a ==> StartsWith(lines[i], "// "))
      && (forall i :: 3 + a <= i < 3 + a + b ==> StartsWith(lines[i], "// "))
      && Join(Uncomment(lines[2..2 + a]), "\n") == sg.oldCode
      && Join(Uncomment(lines[3 + a..3 + a + b]), "\n") == sg.newCode
  {
    CodeRecovered(sg, |Split(sg.oldCode, '\n')|, |Split(sg.newCode, '\n')|);
  }

  /** `CommentBlockRecoversCode` with the two line counts named. */
  lemma CodeRecovered(sg: Suggestion, a: nat, b: nat)
    requires a == |Split(sg.oldCode, '\n')| && b == |Split(sg.newCode, '\n')|
    ensures var lines := Split(InsertedText(sg), '\n');
      && 3 + a + b <= |lines|
      && (forall i :: 2 <= i < 2 + a ==> StartsWith(lines[i], "// "))
      && (forall i :: 3 + a <= i < 3 + a + b ==> StartsWith(lines[i], "// "))
      && Join(Uncomment(lines[2..2 + a]), "\n") == sg.oldCode
      && Join(Uncomment(lines[3 + a..3 + a + b]), "\n") == sg.newCode
  {
    CodeSlices(sg, a, b);
    CodeReadBack(Split(InsertedText(sg), '\n'), sg.oldCode, sg.newCode, a, b);
  }

  /** The two runs of commented-out code in the inserted lines. */
  lemma CodeSlices(sg: Suggestion, a: nat, b: nat)
    requires a == |Split(sg.oldCode, '\n')| && b == |Split(sg.newCode, '\n')|
    ensures var lines := Split(InsertedText(sg), '\n');
      && 3 + a + b <= |lines|
      && lines[2..2 + a] == CommentOut(Split(sg.oldCode, '\n'))
      && lines[3 + a..3 + a + b] == CommentOut(Split(sg.newCode, '\n'))
  {
    CommentBlockLayout(sg);
  }

  /** `CommentBlockRecoversCode` for any lines holding the commented-out
      code at the same places. */
  lemma CodeReadBack(lines: seq<string>, oldCode: string, newCode: string, a: nat, b: nat)
    requires a == |Split(oldCode, '\n')| && b == |Split(newCode, '\n')| && 3 + a + b <= |lines|
    requires lines[2..2 + a] == CommentOut(Split(oldCode, '\n'))
    requires lines[3 + a..3 + a + b] == CommentOut(Split(newCode, '\n'))
    ensures forall i :: 2 <= i < 2 + a ==> StartsWith(lines[i], "// ")
    ensures forall i :: 3 + a <= i < 3 + a + b ==> StartsWith(lines[i], "// ")
    ensures Join(Uncomment(lines[2..2 + a]), "\n") == oldCode
    ensures Join(Uncomment(lines[3 + a..3 + a + b]), "\n") == newCode
  {
    UncommentPart(lines[2..2 + a], oldCode);
    UncommentPart(lines[3 + a..3 + a + b], newCode);
    forall i | 2 <= i < 2 + a ensures StartsWith(lines[i], "// ") {
      assert lines[i] == lines[2..2 + a][i - 2];
    }
    forall i | 3 + a <= i < 3 + a + b ensures StartsWith(lines[i], "// ") {
      assert lines[i] == lines[3 + a..3 + a + b][i - 3 - a];
    }
  }

  lemma UncommentPart(part: seq<string>, code: string)
    requires part == CommentOut(Split(code, '\n'))
    ensures forall i :: 0 <= i < |part| ==> StartsWith(part[i], "// ")
    ensures Join(Uncomment(part), "\n") == code
  {
    CommentRoundTrip(code);
  }

  /** An explanation over several lines is not commented out past its first
      line: each later line is inserted into the document as it is. */
  lemma LaterExplanationLinesUncommented(sg: Suggestion, k: nat)
    requires 1 <= k < |Split(sg.explanation, '\n')|
    ensures var lines := Split(InsertedText(sg), '\n');
      var at := 2 + |Split(sg.oldCode, '\n')| + 1 + |Split(sg.newCode, '\n')| + k;
      at < |lines| && lines[at] == Split(sg.explanation, '\n')[k]
  {
    ExplanationSlice(sg);
    SliceAt(Split(InsertedText(sg), '\n'), 3 + |Split(sg.oldCode, '\n')| + |Split(sg.newCode, '\n')|,
      ExplanationLines(sg.explanation), k);
    ExplanationLineAt(sg.explanation, k);
  }

  /** The explanation's lines sit right after the commented-out new code. */
  lemma ExplanationSlice(sg: Suggestion)
    ensures var lines := Split(InsertedText(sg), '\n');
      var start := 3 + |Split(sg.oldCode, '\n')| + |Split(sg.newCode, '\n')|;
      var x := ExplanationLines(sg.explanation);
      start + |x| <= |lines| && lines[start..start + |x|] == x
  {
    CommentBlockLayout(sg);
  }

  /** For instance, an explanation of two lines puts its second line into
      the document as it is, right after the labelled first one. */
  lemma TwoLineExplanationLeaks(oldCode: string, newCode: string, line: JsNumber, first: string, second: string)
    requires '\n' !in first && '\n' !in second
    ensures var sg := Suggestion(oldCode, newCode, line, first + "\n" + second);
      var lines := Split(InsertedText(sg), '\n');
      var at := 3 + |Split(oldCode, '\n')| + |Split(newCode, '\n')|;
      at + 1 < |lines| && lines[at] == "// Explanation: " + first && lines[at + 1] == second
  {
    var sg := Suggestion(oldCode, newCode, line, first + "\n" + second);
    TwoPieces(first, second);
    ExplanationFirstLine(sg);
    LaterExplanationLinesUncommented(sg, 1);
  }

  /** Two lines joined by a newline split back into those two lines. */
  lemma TwoPieces(first: string, second: string)
    requires '\n' !in first && '\n' !in second
    ensures Split(first + "\n" + second, '\n') == [first, second]
  {
    SplitAtSeparator(first, '\n', second);
    SplitNoSeparator(second, '\n');
    assert first + ['\n'] + second == first + "\n" + second;
  }

  /** Past the first, the explanation's lines are its pieces as they are. */
  lemma ExplanationLineAt(explanation: string, k: nat)
    requires 1 <= k < |Split(explanation, '\n')|
    ensures ExplanationLines(explanation)[k] == Split(explanation, '\n')[k]
  {
    var pieces := Split(explanation, '\n');
    TailAt(pieces, "// Explanation: " + pieces[0], k);
  }

  lemma TailAt(p: seq<string>, h: string, k: nat)
    requires 1 <= k < |p|
    ensures ([h] + p[1..])[k] == p[k]
  {
  }

  /** The first line of the explanation follows the new code, labelled. */
  lemma ExplanationFirstLine(sg: Suggestion)
    ensures var lines := Split(InsertedText(sg), '\n');
      var at := 3 + |Split(sg.oldCode, '\n')| + |Split(sg.newCode, '\n')|;
      at < |lines| && lines[at] == "// Explanation: " + Split(sg.explanation, '\n')[0]
  {
    ExplanationSlice(sg);
    SliceAt(Split(InsertedText(sg), '\n'), 3 + |Split(sg.oldCode, '\n')| + |Split(sg.newCode, '\n')|,
      ExplanationLines(sg.explanation), 0);
  }

  /** An element of a slice, read in the whole sequence. */
  lemma SliceAt(lines: seq<string>, start: nat, x: seq<string>, k: nat)
    requires start + |x| <= |lines| && lines[start..start + |x|] == x && k < |x|
    ensures lines[start + k] == x[k]
  {
    assert lines[start + k] == lines[start..start + |x|][k];
  }

  /** Where the parts of `[h, l] + o + [m] + n + e + x` sit, for `a`
      and `b` the lengths of `o` and `n`. */
  lemma Layout(h: string, l: string, o: seq<string>, m: string, n: seq<string>, e: seq<string>, x: seq<string>, a: nat, b: nat)
    requires |o| == a && |n| == b
    ensures var lines := [h, l] + o + [m] + n + e + x;
      && |lines| == a + b + |e| + |x| + 3
      && lines[0] == h && lines[1] == l && lines[2 + a] == m
      && lines[2..2 + a] == o && lines[3 + a..3 + a + b] == n
      && lines[3 + a + b..3 + a + b + |e|] == e && lines[3 + a + b + |e|..] == x
  {
    var lines := [h, l] + o + [m] + n + e + x;
    assert lines[2..2 + a] == o;
    assert lines[3 + a..3 + a + b] == n;
    assert lines[3 + a + b..3 + a + b + |e|] == e;
    assert lines[3 + a + b + |e|..] == x;
  }

  // ---------------------------------------------------------------------------
  // executeCodeGeneration

  /** A message the extension posts to the plan panel while it executes. */
  datatype ExecMessage = UpdateStepStatus(stepIndex: nat, status: StepStatus) | ExecutionComplete

  /** `executeCodeGeneration(panel, response)`: for each step in order,
      `executing` then `completed`, then one `executionComplete`. The random
      delay between the two updates only spaces them out in time. */
  method ExecuteCodeGeneration(plan: seq<PlanStep>) returns (msgs: seq<ExecMessage>)
    ensures |msgs| == 2 * |plan| + 1
    ensures forall i :: 0 <= i < |plan| ==>
      msgs[2 * i] == UpdateStepStatus(i, Executing) && msgs[2 * i + 1] == UpdateStepStatus(i, Completed)
    ensures msgs[2 * |plan|] == ExecutionComplete
  {
    msgs := [];
    var i := 0;
    while i < |plan|
      invariant 0 <= i <= |plan|
      invariant |msgs| == 2 * i
      invariant forall k :: 0 <= k < i ==>
        msgs[2 * k] == UpdateStepStatus(k, Executing) && msgs[2 * k + 1] == UpdateStepStatus(k, Completed)
    {
      msgs := msgs + [UpdateStepStatus(i, Executing)];
      msgs := msgs + [UpdateStepStatus(i, Completed)];
      i := i + 1;
    }
    msgs := msgs + [ExecutionComplete];
  }
}
