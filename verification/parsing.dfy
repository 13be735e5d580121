/** The marker-section parsers of `src/utils/parsingFunctions.ts`. The
    extension's own copies in `src/extension.ts` are textually identical and
    are modelled by the same definitions. Dafny has no regular expressions, so
    each regex is a hand-written scanner; the comment above each scanner gives
    the argument that it finds what the regex finds. */
module Parsing {

  import opened Wrappers
  import opened Strings

  // ---------------------------------------------------------------------------
  // extractSection:  new RegExp(`${name}:\\s*([\\s\\S]*?)(?=\\w+:|$)`)

  /** End of the `\w` run that starts at `i`. */
  function WordRunEnd(s: string, i: nat): (j: nat)
    requires i <= |s|
    ensures i <= j <= |s| && AllWordChars(s[i..j])
    ensures j == |s| || !IsWordChar(s[j])
  {
    var j := Span(s, i, IsWordChar);
    assert forall k :: 0 <= k < j - i ==> s[i..j][k] == s[i + k];
    j
  }

  /** The lookahead `(?=\w+:|$)` succeeds at `e`. Because `:` is not a word
      character, `\w+` can only be followed by `:` when it spans the whole word
      run (see `StopsAtMeaning`). */
  predicate StopsAt(s: string, e: nat)
    requires e <= |s|
  {
    e == |s| || (var k := WordRunEnd(s, e); e < k < |s| && s[k] == ':')
  }

  /** `StopsAt` is the lookahead: the end of text, or some non-empty run of
      word characters followed by a colon. */
  lemma StopsAtMeaning(s: string, e: nat)
    requires e <= |s|
    ensures StopsAt(s, e) <==>
      (e == |s| || exists k :: e < k < |s| && AllWordChars(s[e..k]) && s[k] == ':')
  {
    if e < |s| && !StopsAt(s, e) {
      var run := WordRunEnd(s, e);
      forall k | e < k < |s|
        ensures AllWordChars(s[e..k]) ==> s[k] != ':'
      {
        if k > run {
          assert s[e..k][run - e] == s[run];
        }
      }
    }
  }

  /** The smallest position at or after `w` where the lookahead succeeds: the
      end of the lazy `([\s\S]*?)` capture. */
  function FirstStop(s: string, w: nat): (e: nat)
    requires w <= |s|
    ensures w <= e <= |s| && StopsAt(s, e)
    ensures forall k :: w <= k < e ==> !StopsAt(s, k)
    decreases |s| - w
  {
    if StopsAt(s, w) then w else FirstStop(s, w + 1)
  }

  /** The regex's match for `extractSection`: the first `name:` is at `p`, and
      `e` is the first place after its colon where the lookahead succeeds. */
  ghost predicate SectionBounds(text: string, name: string, p: nat, c: nat, e: nat) {
    && OccursAt(text, name + ":", p)
    && (forall q: nat :: q < p ==> !OccursAt(text, name + ":", q))
    && c == p + |name| + 1
    && c <= e <= |text| && StopsAt(text, e)
    && (forall k :: c <= k < e ==> !StopsAt(text, k))
  }

  /** `extractSection(text, name)`: finds the first `name:`, skips the
      whitespace after it, and captures lazily up to the first later `\w+:` or
      the end of the text; the capture is trimmed. The regex always matches at
      the first `name:` because `$` makes the lookahead succeed at the end, so
      `\s*` never has to give anything back. */
  function ExtractSection(text: string, name: string): (r: string)
    ensures !Contains(text, name + ":") ==> r == ""
    ensures IsTrimmed(r)
  {
    ContainsIffFound(text, name + ":");
    match Capture(text, name)
    case None => ""
    case Some((w, e)) => Trim(text[w..e])
  }

  /** The bounds of the lazy capture: from the end of the whitespace after the
      first `name:` to the first place the lookahead succeeds. */
  function Capture(text: string, name: string): (r: Option<(nat, nat)>)
    ensures r.None? <==> IndexOf(text, name + ":", 0).None?
    ensures r.Some? ==> r.value.0 <= r.value.1 <= |text|
  {
    match IndexOf(text, name + ":", 0)
    case None => None
    case Some(p) =>
      var w := SkipSpaces(text, p + |name| + 1);
      Some((w, FirstStop(text, w)))
  }

  /** When `name:` occurs, the section is the trimmed text from its first
      occurrence's colon (`p` is the occurrence, `c` the position after the
      colon) to the first place `e` the lookahead succeeds. */
  lemma SectionAt(text: string, name: string) returns (p: nat, c: nat, e: nat)
    requires Contains(text, name + ":")
    ensures SectionBounds(text, name, p, c, e) && ExtractSection(text, name) == Trim(text[c..e])
  {
    p, c := FirstLabel(text, name);
    e := CaptureFrom(text, name, p, c);
  }

  /** The first occurrence of `name:` and the position after its colon. */
  lemma FirstLabel(text: string, name: string) returns (p: nat, c: nat)
    requires Contains(text, name + ":")
    ensures IndexOf(text, name + ":", 0) == Some(p) && c == p + |name| + 1 <= |text|
    ensures OccursAt(text, name + ":", p) && forall q: nat :: q < p ==> !OccursAt(text, name + ":", q)
  {
    ContainsIffFound(text, name + ":");
    p := IndexOf(text, name + ":", 0).value;
    c := p + |name| + 1;
  }

  /** The capture after the first label's colon: from `c` to the first stop,
      trimmed. */
  lemma CaptureFrom(text: string, name: string, p: nat, c: nat) returns (e: nat)
    requires IndexOf(text, name + ":", 0) == Some(p) && c == p + |name| + 1 <= |text|
    ensures c <= e <= |text| && StopsAt(text, e) && (forall k :: c <= k < e ==> !StopsAt(text, k))
    ensures ExtractSection(text, name) == Trim(text[c..e])
  {
    var w := SkipSpaces(text, c);
    e := FirstStop(text, w);
    CaptureAfter(text, name, p, c);
    SectionText(text, name, c, w, e);
    NoStopInSpaces(text, c, w, e);
  }

  lemma CaptureAfter(text: string, name: string, p: nat, c: nat)
    requires IndexOf(text, name + ":", 0) == Some(p) && c == p + |name| + 1 <= |text|
    ensures Capture(text, name) == Some((SkipSpaces(text, c), FirstStop(text, SkipSpaces(text, c))))
  {
  }

  /** Trimming absorbs the whitespace the pattern skips: starting the capture
      before or after it gives the same section. */
  lemma SectionText(text: string, name: string, c: nat, w: nat, e: nat)
    requires c <= w <= e <= |text| && Capture(text, name) == Some((w, e))
    requires forall k :: c <= k < w ==> IsSpace(text[k])
    ensures ExtractSection(text, name) == Trim(text[c..e])
  {
    assert text[c..e] == text[c..w] + text[w..e];
    assert AllSpace(text[c..w]) by {
      forall i | 0 <= i < w - c ensures IsSpace(text[c..w][i]) {
        assert text[c..w][i] == text[c + i];
      }
    }
    TrimIgnoresLeadingSpace(text[c..w], text[w..e]);
  }

  /** Whitespace is never where the lookahead succeeds. */
  lemma NoStopInSpaces(text: string, c: nat, w: nat, e: nat)
    requires c <= w <= e <= |text|
    requires forall k :: c <= k < w ==> IsSpace(text[k])
    requires forall k :: w <= k < e ==> !StopsAt(text, k)
    ensures forall k :: c <= k < e ==> !StopsAt(text, k)
  {
    forall k | c <= k < w ensures !StopsAt(text, k) {
      assert !IsWordChar(text[k]);
    }
  }

  /** A section never contains a word character directly followed by a colon:
      that would have been an earlier place for the lookahead to stop. */
  lemma SectionHasNoLabel(text: string, name: string, i: nat)
    requires i + 1 < |ExtractSection(text, name)|
    ensures !(IsWordChar(ExtractSection(text, name)[i]) && ExtractSection(text, name)[i + 1] == ':')
  {
    assert Contains(text, name + ":");
    var c, e := SectionSpan(text, name);
    CaptureHasNoLabel(text, c, e, i);
  }

  /** The capture of a present section, from the colon on, holds no stop. */
  lemma SectionSpan(text: string, name: string) returns (c: nat, e: nat)
    requires Contains(text, name + ":")
    ensures c <= e <= |text| && ExtractSection(text, name) == Trim(text[c..e])
    ensures forall k :: c <= k < e ==> !StopsAt(text, k)
    ensures exists p :: SectionBounds(text, name, p, c, e)
  {
    var p;
    p, c, e := SectionAt(text, name);
    assert SectionBounds(text, name, p, c, e);
  }

  /** No word character followed by a colon inside a stretch with no stop. */
  lemma CaptureHasNoLabel(text: string, c: nat, e: nat, i: nat)
    requires c <= e <= |text| && i + 1 < |Trim(text[c..e])|
    requires forall k :: c <= k < e ==> !StopsAt(text, k)
    ensures !(IsWordChar(Trim(text[c..e])[i]) && Trim(text[c..e])[i + 1] == ':')
  {
    var x := text[c..e];
    var t := Trim(x);
    var a, b := TrimSlice(x);
    var k := PairInSlice(text, c, e, a, b, i);
    if IsWordChar(text[k]) && text[k + 1] == ':' {
      LabelStops(text, k);
      assert false;
    }
  }

  /** Two neighbours in a slice of a slice are neighbours in the text. */
  lemma PairInSlice(s: string, c: nat, e: nat, a: nat, b: nat, i: nat) returns (k: nat)
    requires c <= e <= |s| && a <= b <= e - c && i + 1 < b - a
    ensures c <= k && k + 1 < e
    ensures s[c..e][a..b][i] == s[k] && s[c..e][a..b][i + 1] == s[k + 1]
  {
    k := c + a + i;
  }

  /** A word character followed by a colon is a place the lookahead stops. */
  lemma LabelStops(s: string, k: nat)
    requires k + 1 < |s| && IsWordChar(s[k]) && s[k + 1] == ':'
    ensures StopsAt(s, k)
  {
    assert AllWordChars(s[k..k + 1]);
    StopsAtMeaning(s, k);
  }

  // ---------------------------------------------------------------------------
  // cleanCodeBlock:  .replace(/```[a-zA-Z]*\n?/, "").replace(/```$/, "").trim()

  const Fence: string := "```"

  /** The first `replace`: the regex can match wherever a fence starts (the
      letters and the newline are optional), so it removes the first fence
      together with the letters and the one newline that follow it. */
  function StripOpeningFence(s: string): string {
    match IndexOf(s, Fence, 0)
    case None => s
    case Some(i) =>
      var j := Span(s, i + 3, IsLetter);
      var k := if j < |s| && s[j] == '\n' then j + 1 else j;
      s[..i] + s[k..]
  }

  /** The second `replace`: without the `m` flag `$` is the end of the text. */
  function StripClosingFence(s: string): string {
    if EndsWith(s, Fence) then s[..|s| - 3] else s
  }

  /** `cleanCodeBlock(code)`. */
  function CleanCodeBlock(code: string): (r: string)
    ensures IsTrimmed(r)
    ensures !Contains(code, Fence) ==> r == Trim(code)
  {
    FenceFreeIsUntouched(code);
    Trim(StripClosingFence(StripOpeningFence(code)))
  }

  lemma FenceFreeIsUntouched(code: string)
    ensures !Contains(code, Fence) ==> StripClosingFence(StripOpeningFence(code)) == code
  {
    if EndsWith(code, Fence) {
      ContainsAt(code, Fence, |code| - 3);
    }
    ContainsIffFound(code, Fence);
  }

  /** A fenced block, with or without a language tag, cleans to its trimmed
      body. */
  lemma CleanFencedBlock(lang: string, body: string)
    requires forall i :: 0 <= i < |lang| ==> IsLetter(lang[i])
    ensures CleanCodeBlock(Fence + lang + "\n" + body + Fence) == Trim(body)
  {
    var rest := body + Fence;
    assert Fence + lang + "\n" + body + Fence == Fence + lang + "\n" + rest;
    OpeningFenceStripped(lang, rest);
    assert rest[..|rest| - 3] == body;
  }

  /** The opening fence, its language tag and the newline after it are
      removed. */
  lemma OpeningFenceStripped(lang: string, rest: string)
    requires forall i :: 0 <= i < |lang| ==> IsLetter(lang[i])
    ensures StripOpeningFence(Fence + lang + "\n" + rest) == rest
  {
    var s := Fence + lang + "\n" + rest;
    var j := 3 + |lang|;
    assert OccursAt(s, Fence, 0);
    assert IndexOf(s, Fence, 0) == Some(0);
    assert forall i :: 3 <= i < j ==> IsLetter(s[i]);
    assert s[j] == '\n';
    assert Span(s, 3, IsLetter) == j by { SpanFrom(s, 3, j, IsLetter); }
    assert s[j + 1..] == rest;
  }

  // ---------------------------------------------------------------------------
  // parseAIResponse

  /** The match of `/START([\s\S]*?)END/`: the first start marker at `p`
      and the first end marker at or after its end at `q`. */
  ghost predicate PairAt(s: string, start: string, end: string, p: nat, q: nat) {
    && OccursAt(s, start, p) && (forall k: nat :: k < p ==> !OccursAt(s, start, k))
    && p + |start| <= q && OccursAt(s, end, q)
    && (forall k: nat :: p + |start| <= k < q ==> !OccursAt(s, end, k))
  }

  /** Where `/START([\s\S]*?)END/` matches. The leftmost start marker that
      has an end marker after it is the first start marker, since an end
      marker after a later start is after the first one too. */
  function FirstPair(s: string, start: string, end: string): (r: Option<(nat, nat)>)
    ensures r.Some? <==> HasMarkerPair(s, start, end)
    ensures r.Some? ==> PairAt(s, start, end, r.value.0, r.value.1)
  {
    match IndexOf(s, start, 0)
    case None => None
    case Some(p) =>
      if p + |start| > |s| then None
      else match IndexOf(s, end, p + |start|)
        case None => None
        case Some(q) => Some((p, q))
  }

  /** `raw.match(/START([\s\S]*?)END/)?.[1]`: the body between the first
      start marker and the first end marker after it. */
  function MarkerBody(s: string, start: string, end: string): (r: Option<string>)
    ensures r.Some? <==> HasMarkerPair(s, start, end)
    ensures r.Some? ==> exists p: nat, q: nat :: PairAt(s, start, end, p, q) && r.value == s[p + |start|..q]
  {
    match FirstPair(s, start, end)
    case None => None
    case Some((p, q)) => Some(s[p + |start|..q])
  }

  /** What the regex needs: some start marker with an end marker after it. */
  ghost predicate HasMarkerPair(s: string, start: string, end: string) {
    exists p: nat, q: nat :: OccursAt(s, start, p) && p + |start| <= q && OccursAt(s, end, q)
  }

  /** Wrapping a body in its markers and reading it back gives the body, as
      long as the end marker does not already start inside the body. */
  lemma MarkerBodyRoundTrip(start: string, body: string, end: string, post: string)
    requires forall k :: 0 <= k < |body| ==> !OccursAt(body + end, end, k)
    ensures FirstPair(start + body + end + post, start, end) == Some((0, |start| + |body|))
    ensures MarkerBody(start + body + end + post, start, end) == Some(body)
  {
    var s := start + body + end + post;
    assert OccursAt(s, start, 0);
    var q := |start| + |body|;
    assert OccursAt(s, end, q) by {
      assert s[q..q + |end|] == end;
    }
    forall k | |start| <= k < q ensures !OccursAt(s, end, k) {
      var j := k - |start|;
      assert !OccursAt(body + end, end, j);
      assert s[k..k + |end|] == (body + end)[j..j + |end|];
    }
    assert IndexOf(s, end, |start|) == Some(q);
    assert FirstPair(s, start, end) == Some((0, q));
    assert s[|start|..q] == body;
  }

  datatype StepStatus = Pending | Executing | Completed

  datatype PlanStep = PlanStep(step: nat, description: string, status: StepStatus)

  datatype AIResponse = AIResponse(plan: seq<PlanStep>, newCode: string, explanation: string)

  const DefaultExplanation: string := "No explanation provided."

  // `line.replace(/^\d+\.\s*/, '')`: `\d+` is greedy and `.` is not a digit,
  // so it must be the whole leading digit run; `\s*` then takes the whole
  // whitespace run after the dot.
  function StripNumberPrefix(line: string): (r: string)
    ensures !(|line| > 0 && IsDigit(line[0])) ==> r == line
    ensures |r| <= |line| && r == line[|line| - |r|..]
  {
    var d := Span(line, 0, IsDigit);
    if 0 < d < |line| && line[d] == '.' then line[SkipSpaces(line, d + 1)..] else line
  }

  /** `${n}. ${text}`: how a numbered list item is written. */
  function NumberedLine(n: nat, text: string): string {
    NatToString(n) + ". " + text
  }

  /** The lines of a list numbered from `first`. */
  function NumberLines(items: seq<string>, first: nat): (r: seq<string>)
    ensures |r| == |items|
    ensures forall i :: 0 <= i < |r| ==> r[i] == NumberedLine(first + i, items[i])
    decreases |items|
  {
    if |items| == 0 then [] else [NumberedLine(first, items[0])] + NumberLines(items[1..], first + 1)
  }

  /** Stripping the number prefix from a numbered line gives back its text,
      provided the text does not itself start with whitespace. */
  lemma NumberedLineRoundTrip(n: nat, text: string)
    requires |text| == 0 || !IsSpace(text[0])
    ensures StripNumberPrefix(NumberedLine(n, text)) == text
  {
    var line := NumberedLine(n, text);
    var d := |NatToString(n)|;
    assert line[d] == '.' && line[d + 1] == ' ' && line[d + 2..] == text;
    SpanFrom(line, 0, d, IsDigit);
    SpanFrom(line, d + 1, d + 2, IsSpace);
  }

  /** `.filter(line => line.trim())`. */
  function NonBlankLines(lines: seq<string>): (r: seq<string>)
    ensures |r| <= |lines|
    ensures forall i :: 0 <= i < |r| ==> Trim(r[i]) != [] && r[i] in lines
  {
    if |lines| == 0 then []
    else if Trim(lines[0]) != [] then [lines[0]] + NonBlankLines(lines[1..])
    else NonBlankLines(lines[1..])
  }

  /** The `map` that numbers the plan lines from `first`, by position. */
  function NumberSteps(lines: seq<string>, first: nat): (r: seq<PlanStep>)
    ensures |r| == |lines|
    ensures forall i :: 0 <= i < |r| ==>
      r[i] == PlanStep(first + i, Trim(StripNumberPrefix(lines[i])), Pending)
  {
    seq(|lines|, i requires 0 <= i < |lines| => PlanStep(first + i, Trim(StripNumberPrefix(lines[i])), Pending))
  }

  /** The filter is a homomorphism over concatenation: it decides each line
      on its own and keeps the order. */
  lemma {:induction false} NonBlankLinesAppend(a: seq<string>, b: seq<string>)
    ensures NonBlankLines(a + b) == NonBlankLines(a) + NonBlankLines(b)
    decreases |a|
  {
    if |a| > 0 {
      assert (a + b)[0] == a[0] && (a + b)[1..] == a[1..] + b;
      NonBlankLinesAppend(a[1..], b);
    } else {
      assert a + b == b;
    }
  }

  /** A line is kept exactly when it is not blank. */
  lemma NonBlankLinesSingle(line: string)
    ensures NonBlankLines([line]) == (if Trim(line) != [] then [line] else [])
  {
  }

  /** Lines that are all non-blank pass the filter unchanged. */
  lemma {:induction false} NonBlankLinesKeepsAll(lines: seq<string>)
    requires forall i :: 0 <= i < |lines| ==> Trim(lines[i]) != []
    ensures NonBlankLines(lines) == lines
    decreases |lines|
  {
    if |lines| > 0 {
      NonBlankLinesKeepsAll(lines[1..]);
    }
  }

  /** The plan held by a `PLAN_START`…`PLAN_END` body. */
  function PlanFromBlock(block: string): seq<PlanStep> {
    NumberSteps(NonBlankLines(Split(Trim(block), '\n')), 1)
  }

  /** A plan written the way the prompt asks: one numbered line per step. */
  function RenderPlan(descriptions: seq<string>): string {
    Join(NumberLines(descriptions, 1), "\n")
  }

  /** The steps a plan of these descriptions should parse to. */
  function PendingSteps(descriptions: seq<string>): (r: seq<PlanStep>)
    ensures |r| == |descriptions|
  {
    seq(|descriptions|, i requires 0 <= i < |descriptions| => PlanStep(i + 1, descriptions[i], Pending))
  }

  /** A numbered line is never blank: it starts with a digit. */
  lemma NumberedLineShape(n: nat, text: string)
    ensures Trim(NumberedLine(n, text)) != [] && IsDigit(NumberedLine(n, text)[0])
    ensures '\n' !in text ==> '\n' !in NumberedLine(n, text)
    ensures EndsWith(NumberedLine(n, text), text)
  {
    var line := NumberedLine(n, text);
    TrimEmptyIff(line);
    assert !IsSpace(line[0]);
  }

  /** Rendering non-empty, trimmed, single-line step descriptions as a
      numbered plan and parsing the plan back gives those descriptions,
      numbered from 1 and pending. */
  lemma PlanRoundTrip(descriptions: seq<string>)
    requires forall i :: 0 <= i < |descriptions| ==>
      descriptions[i] != [] && IsTrimmed(descriptions[i]) && '\n' !in descriptions[i]
    ensures PlanFromBlock(RenderPlan(descriptions)) == PendingSteps(descriptions)
  {
    var lines := NumberLines(descriptions, 1);
    if |descriptions| == 0 {
      assert RenderPlan(descriptions) == "";
      TrimmedIsFixpoint("");
      assert Split(Trim(RenderPlan(descriptions)), '\n') == [""];
    } else {
      RenderedPlanLines(descriptions);
      forall i | 0 <= i < |lines|
        ensures Trim(lines[i]) != []
      {
        NumberedLineShape(1 + i, descriptions[i]);
      }
      NonBlankLinesKeepsAll(lines);
      NumberedStepsArePending(descriptions);
    }
  }

  /** Numbering the rendered lines recovers every description. */
  lemma NumberedStepsArePending(descriptions: seq<string>)
    requires forall i :: 0 <= i < |descriptions| ==> descriptions[i] != [] && IsTrimmed(descriptions[i])
    ensures NumberSteps(NumberLines(descriptions, 1), 1) == PendingSteps(descriptions)
  {
    forall i | 0 <= i < |descriptions|
      ensures NumberSteps(NumberLines(descriptions, 1), 1)[i] == PendingSteps(descriptions)[i]
    {
      NumberedStepAt(descriptions, i);
    }
  }

  lemma NumberedStepAt(descriptions: seq<string>, i: nat)
    requires i < |descriptions| && descriptions[i] != [] && IsTrimmed(descriptions[i])
    ensures NumberSteps(NumberLines(descriptions, 1), 1)[i] == PendingSteps(descriptions)[i]
  {
    NumberedLineRoundTrip(1 + i, descriptions[i]);
    TrimmedIsFixpoint(descriptions[i]);
  }

  /** The trimmed plan block splits back into its numbered lines. */
  lemma RenderedPlanLines(descriptions: seq<string>)
    requires |descriptions| >= 1
    requires forall i :: 0 <= i < |descriptions| ==>
      descriptions[i] != [] && IsTrimmed(descriptions[i]) && '\n' !in descriptions[i]
    ensures Split(Trim(RenderPlan(descriptions)), '\n') == NumberLines(descriptions, 1)
  {
    var lines := NumberLines(descriptions, 1);
    RenderedPlanTrimmed(descriptions);
    TrimmedIsFixpoint(RenderPlan(descriptions));
    forall i | 0 <= i < |lines| ensures '\n' !in lines[i] {
      NumberedLineShape(1 + i, descriptions[i]);
    }
    SplitJoin(lines, '\n');
  }

  /** A rendered plan starts with a digit and ends with its last description,
      so trimming leaves it alone. */
  lemma RenderedPlanTrimmed(descriptions: seq<string>)
    requires |descriptions| >= 1
    requires forall i :: 0 <= i < |descriptions| ==> descriptions[i] != [] && IsTrimmed(descriptions[i])
    ensures IsTrimmed(RenderPlan(descriptions))
  {
    var lines := NumberLines(descriptions, 1);
    var last := |lines| - 1;
    NumberedLineShape(1, descriptions[0]);
    assert !IsSpace(lines[0][0]);
    NumberedLineShape(1 + last, descriptions[last]);
    LastCharOfSuffix(lines[last], descriptions[last]);
    assert !IsSpace(lines[last][|lines[last]| - 1]);
    JoinTrimmed(lines, "\n");
  }

  /** `parseAIResponse(raw)`: each field from its own marker pair. */
  function ParseAIResponse(raw: string): (r: AIResponse)
    ensures !HasMarkerPair(raw, "PLAN_START", "PLAN_END") ==> r.plan == []
    ensures !HasMarkerPair(raw, "NEW_CODE_START", "NEW_CODE_END") ==> r.newCode == ""
    ensures !HasMarkerPair(raw, "EXPLANATION_START", "EXPLANATION_END") ==>
      r.explanation == DefaultExplanation
    ensures HasMarkerPair(raw, "PLAN_START", "PLAN_END") ==>
      r.plan == PlanFromBlock(MarkerBody(raw, "PLAN_START", "PLAN_END").value)
    ensures HasMarkerPair(raw, "NEW_CODE_START", "NEW_CODE_END") ==>
      r.newCode == Trim(MarkerBody(raw, "NEW_CODE_START", "NEW_CODE_END").value)
    ensures HasMarkerPair(raw, "EXPLANATION_START", "EXPLANATION_END") ==>
      r.explanation == Trim(MarkerBody(raw, "EXPLANATION_START", "EXPLANATION_END").value)
    ensures IsTrimmed(r.newCode)
    ensures forall i :: 0 <= i < |r.plan| ==>
      r.plan[i].step == i + 1 && r.plan[i].status == Pending
  {
    var plan :=
      match MarkerBody(raw, "PLAN_START", "PLAN_END")
      case None => []
      case Some(body) => PlanFromBlock(body);
    AIResponse(
      plan,
      match MarkerBody(raw, "NEW_CODE_START", "NEW_CODE_END")
      case None => ""
      case Some(body) => Trim(body),
      match MarkerBody(raw, "EXPLANATION_START", "EXPLANATION_END")
      case None => DefaultExplanation
      case Some(body) => Trim(body))
  }
}
