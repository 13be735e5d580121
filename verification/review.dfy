/** The code-review agent of `src/utils/CodeReviewAgents.ts`: the input guard
    and truncation of `performCodeReview`, the four aspects in their fixed
    order with a failure caught per aspect, the retry policy and error
    messages of `callGeminiAPI`, and the line parser `parseCodeReviewResponse`.
    Each HTTP attempt is an oracle value: what the attempt produced. */
module Review {

  import opened Wrappers
  import opened Strings

  // ---------------------------------------------------------------------------
  // Results

  datatype Aspect = Bug | Performance | Security | Clarity

  /** The order `performCodeReview` runs and reports the aspects in. */
  const AspectOrder: seq<Aspect> := [Bug, Performance, Security, Clarity]

  /** `CodeReviewResult`. */
  datatype ReviewResult = ReviewResult(
    aspect: Aspect,
    hasIssues: bool,
    issues: seq<string>,
    recommendations: seq<string>,
    steps: seq<string>)

  // ---------------------------------------------------------------------------
  // Input guard and truncation

  const NoCodeMessage: string := "No code content provided for review"
  const NoKeyMessage: string := "No API key provided"
  const MaxCodeLength: nat := 10000
  const TruncationNote: string := "\n\n[Code truncated for analysis due to length]"

  /** The two checks before any aspect runs; `None` lets the review go on. An
      empty string is caught by the same test as a blank one. */
  function CheckInput(code: string, apiKey: string): (r: Option<string>)
    ensures r.None? <==> Trim(code) != [] && Trim(apiKey) != []
    ensures Trim(code) == [] ==> r == Some(NoCodeMessage)
    ensures Trim(code) != [] && Trim(apiKey) == [] ==> r == Some(NoKeyMessage)
  {
    if Trim(code) == [] then Some(NoCodeMessage)
    else if Trim(apiKey) == [] then Some(NoKeyMessage)
    else None
  }

  /** Code over the limit keeps its first 10000 characters and gets a note. */
  function Truncate(code: string): (r: string)
    ensures |code| <= MaxCodeLength ==> r == code
    ensures |code| > MaxCodeLength ==>
      |r| == MaxCodeLength + |TruncationNote| && StartsWith(r, code[..MaxCodeLength]) && EndsWith(r, TruncationNote)
    ensures |r| <= MaxCodeLength + |TruncationNote|
  {
    if |code| > MaxCodeLength then code[..MaxCodeLength] + TruncationNote else code
  }

  /** Truncating twice is truncating once: the note sits past the limit, so
      a second cut removes it and puts it back. */
  lemma TruncateIdempotent(code: string)
    ensures Truncate(Truncate(code)) == Truncate(code)
  {
    if |code| > MaxCodeLength {
      var t := Truncate(code);
      assert t[..MaxCodeLength] == code[..MaxCodeLength];
    }
  }

  // ---------------------------------------------------------------------------
  // callGeminiAPI: retry policy and error messages

  /** The part of an axios error response the code reads; a `status` of 0
      stands for a missing (falsy) status. */
  datatype HttpResponse = HttpResponse(status: nat, statusText: string)

  /** What one attempt of the HTTP call produced. */
  datatype Attempt =
    | Reply(text: string)
      /** A reply without `candidates[0].content.parts[0]`. */
    | MalformedReply
      /** An axios error, with the response if the server sent one. */
    | HttpFailure(response: Option<HttpResponse>)
      /** Anything else that was thrown. */
    | OtherFailure(thrown: Thrown)

  const MaxRetries: nat := 2
  const MalformedMessage: string := "Invalid response structure from Gemini API"
  const InvalidKeyMessage: string := "Invalid API key - please check your Gemini API key"
  const RateLimitMessage: string := "Rate limit exceeded" + TryAgainLater
  const ServerErrorMessage: string := "Gemini API server error" + TryAgainLater
  const TryAgainLater: string := " - please try again later"

  /** Only an axios error whose response status is 429 or at least 500 is
      retried. */
  predicate Retryable(a: Attempt) {
    a.HttpFailure? && a.response.Some? &&
    var status := a.response.value.status;
    status != 0 && (status >= 500 || status == 429)
  }

  /** The wait before retry number `retryCount + 1`: linear, not exponential. */
  function RetryDelay(retryCount: nat): nat {
    1000 * (retryCount + 1)
  }

  /** The message an axios error is turned into once it is not retried. */
  function HttpErrorMessage(response: Option<HttpResponse>): string {
    var status := if response.Some? then response.value.status else 0;
    var statusText := if response.Some? then response.value.statusText else "";
    if status == 401 then InvalidKeyMessage
    else if status == 429 then RateLimitMessage
    else if status != 0 && status >= 500 then ServerErrorMessage
    else
      var shownStatus := if status != 0 then NatToString(status) else "unknown";
      var shownText := if statusText != "" then statusText else "unknown error";
      "API request failed: " + shownStatus + " " + shownText
  }

  /** The outcome of the call and the delays waited before each retry. */
  datatype Call = Call(result: Result<string, Thrown>, delays: seq<nat>)

  /** What ends the call when attempt `a` is not retried. */
  function Settle(a: Attempt): Result<string, Thrown> {
    match a
    case Reply(text) => Success(text)
    case MalformedReply => Failure(ErrorValue(MalformedMessage))
    case HttpFailure(response) => Failure(ErrorValue(HttpErrorMessage(response)))
    case OtherFailure(thrown) => Failure(thrown)
  }

  /** `callGeminiAPI(apiKey, prompt, retryCount)`: attempt `retryCount`,
      retried while retries remain and the attempt is retryable. */
  function CallFrom(attempt: nat -> Attempt, retryCount: nat): (c: Call)
    requires retryCount <= MaxRetries
    ensures |c.delays| <= MaxRetries - retryCount
    ensures forall k :: 0 <= k < |c.delays| ==>
      c.delays[k] == RetryDelay(retryCount + k) && Retryable(attempt(retryCount + k))
    ensures var last := attempt(retryCount + |c.delays|);
      c.result == Settle(last) && (Retryable(last) ==> retryCount + |c.delays| == MaxRetries)
    decreases MaxRetries - retryCount
  {
    var a := attempt(retryCount);
    if retryCount < MaxRetries && Retryable(a) then
      var rest := CallFrom(attempt, retryCount + 1);
      Call(rest.result, [RetryDelay(retryCount)] + rest.delays)
    else Call(Settle(a), [])
  }

  /** The call as the aspects make it: at most three attempts; every attempt
      but the last was retryable and was followed by a wait of 1000·k ms; the
      last attempt decides the outcome, and it was retryable only if no
      retries were left. */
  function CallGemini(attempt: nat -> Attempt): (c: Call)
    ensures 1 <= |c.delays| + 1 <= MaxRetries + 1
    ensures forall k :: 0 <= k < |c.delays| ==> c.delays[k] == 1000 * (k + 1) && Retryable(attempt(k))
    ensures c.result == Settle(attempt(|c.delays|))
    ensures Retryable(attempt(|c.delays|)) ==> |c.delays| == MaxRetries
  {
    CallFrom(attempt, 0)
  }

  /** A failure that is not an axios error is never retried and is passed on
      unchanged. */
  lemma OtherFailuresPassThrough(attempt: nat -> Attempt)
    requires attempt(0).OtherFailure?
    ensures CallGemini(attempt) == Call(Failure(attempt(0).thrown), [])
  {
  }

  /** The retry policy only repeats identical retryable failures: if every
      attempt fails with status 503, the call makes three attempts, waits
      1000 and 2000 ms, and reports a server error. */
  lemma PersistentServerError(attempt: nat -> Attempt)
    requires forall k :: attempt(k) == HttpFailure(Some(HttpResponse(503, "Service Unavailable")))
    ensures CallGemini(attempt) == Call(Failure(ErrorValue(ServerErrorMessage)), [1000, 2000])
  {
    var c := CallGemini(attempt);
    assert |c.delays| == MaxRetries;
  }

  // ---------------------------------------------------------------------------
  // parseCodeReviewResponse

  datatype Section = NoSection | IssuesSection | RecommendationsSection | StepsSection

  /** The parser's state between lines. */
  datatype ParseState = ParseState(
    section: Section,
    issues: seq<string>,
    recommendations: seq<string>,
    steps: seq<string>)

  const StartState: ParseState := ParseState(NoSection, [], [], [])

  /** An item survives unless it is empty or mentions one of the four
      "nothing found" phrases. The prompts' own "No bugs detected",
      "No recommendations needed" and "No action required" are not among
      them. */
  predicate Kept(content: string) {
    content != [] && forall phrase :: phrase in DroppedPhrases ==> !Contains(content, phrase)
  }

  /** "No issues detected", "No performance issues detected",
      "No security issues detected" and "No clarity issues detected". */
  const DroppedPhrases: seq<string> := [
    "No " + IssuesWord + " detected", "No performance " + IssuesWord + " detected",
    "No security " + IssuesWord + " detected", "No clarity " + IssuesWord + " detected"]

  const IssuesWord: string := "issues"

  /** The section a header line switches to, if it is one. */
  function HeaderSection(trimmed: string): Section {
    if trimmed == "ISSUES:" then IssuesSection
    else if trimmed == "RECOMMENDATIONS:" then RecommendationsSection
    else if trimmed == "STEPS:" then StepsSection
    else NoSection
  }

  /** Appends items to the list of the current section. */
  function AppendItems(st: ParseState, items: seq<string>): ParseState {
    match st.section
    case IssuesSection => st.(issues := st.issues + items)
    case RecommendationsSection => st.(recommendations := st.recommendations + items)
    case StepsSection => st.(steps := st.steps + items)
    case NoSection => st
  }

  /** One iteration of the line loop. */
  function ParseLine(st: ParseState, line: string): ParseState {
    var trimmed := Trim(line);
    var header := HeaderSection(trimmed);
    if header != NoSection then st.(section := header)
    else if StartsWith(trimmed, "-") && st.section != NoSection then
      var content := Trim(trimmed[1..]);
      if Kept(content) then AppendItems(st, [content]) else st
    else st
  }

  /** The line loop from state `st`. */
  function ParseLines(st: ParseState, lines: seq<string>): ParseState
    decreases |lines|
  {
    if |lines| == 0 then st else ParseLines(ParseLine(st, lines[0]), lines[1..])
  }

  /** What every reachable state satisfies with respect to a start state:
      the lists only grow, and everything added is a kept, trimmed item. */
  ghost predicate Extends(st: ParseState, st': ParseState) {
    && st.issues <= st'.issues
    && st.recommendations <= st'.recommendations
    && st.steps <= st'.steps
    && (forall i :: |st.issues| <= i < |st'.issues| ==> Kept(st'.issues[i]) && IsTrimmed(st'.issues[i]))
    && (forall i :: |st.recommendations| <= i < |st'.recommendations| ==>
          Kept(st'.recommendations[i]) && IsTrimmed(st'.recommendations[i]))
    && (forall i :: |st.steps| <= i < |st'.steps| ==> Kept(st'.steps[i]) && IsTrimmed(st'.steps[i]))
  }

  lemma ParseLineExtends(st: ParseState, line: string)
    ensures Extends(st, ParseLine(st, line))
  {
  }

  lemma ExtendsTransitive(a: ParseState, b: ParseState, c: ParseState)
    requires Extends(a, b) && Extends(b, c)
    ensures Extends(a, c)
  {
  }

  /** Items keep their order and are never removed: the result extends the
      start state with kept, trimmed items only. */
  lemma {:induction false} ParseLinesExtends(st: ParseState, lines: seq<string>)
    ensures Extends(st, ParseLines(st, lines))
    decreases |lines|
  {
    if |lines| == 0 {
      assert Extends(st, st);
    } else {
      var st1 := ParseLine(st, lines[0]);
      ParseLineExtends(st, lines[0]);
      ParseLinesExtends(st1, lines[1..]);
      ExtendsTransitive(st, st1, ParseLines(st1, lines[1..]));
    }
  }

  /** The loop is a fold: the lines can be taken in two parts. */
  lemma {:induction false} ParseLinesAppend(st: ParseState, a: seq<string>, b: seq<string>)
    ensures ParseLines(st, a + b) == ParseLines(ParseLines(st, a), b)
    decreases |a|
  {
    if |a| == 0 {
      assert a + b == b;
    } else {
      assert (a + b)[0] == a[0] && (a + b)[1..] == a[1..] + b;
      ParseLinesAppend(ParseLine(st, a[0]), a[1..], b);
    }
  }

  /** Lines before the first header change nothing, dash lines included. */
  lemma {:induction false} NoHeaderNoEffect(st: ParseState, lines: seq<string>)
    requires st.section == NoSection
    requires forall i :: 0 <= i < |lines| ==> HeaderSection(Trim(lines[i])) == NoSection
    ensures ParseLines(st, lines) == st
    decreases |lines|
  {
    if |lines| > 0 {
      NoHeaderNoEffect(st, lines[1..]);
    }
  }

  const NoSpecificIssues: string := "No specific issues detected"
  const WellStructured: string := "Code appears to be well-structured"
  const KeepMonitoring: string := "Continue monitoring code quality"
  const NoIssues: string := "No issues detected"
  const NoRecommendations: string := "No recommendations needed"
  const NoAction: string := "No action required"
  /** What the bug prompt asks for under ISSUES when there is nothing. */
  const NoBugs: string := "No bugs detected"

  /** `parseCodeReviewResponse(response, type)`. */
  function ParseReview(response: string, aspect: Aspect): (r: ReviewResult)
    ensures r.aspect == aspect
    ensures var st := ParseLines(StartState, Split(response, '\n'));
      && (r.hasIssues <==> st.issues != [] || st.recommendations != [] || st.steps != [])
      && (r.hasIssues ==> r.issues == st.issues && r.recommendations == st.recommendations && r.steps == st.steps)
    ensures r.hasIssues ==> forall x :: x in r.issues + r.recommendations + r.steps ==> Kept(x) && IsTrimmed(x)
    ensures !r.hasIssues && Trim(response) != [] ==>
      r.issues == [NoSpecificIssues] && r.recommendations == [WellStructured] && r.steps == [KeepMonitoring]
    ensures !r.hasIssues && Trim(response) == [] ==>
      r.issues == [NoIssues] && r.recommendations == [NoRecommendations] && r.steps == [NoAction]
  {
    var st := ParseLines(StartState, Split(response, '\n'));
    ParseLinesExtends(StartState, Split(response, '\n'));
    var hasIssues := st.issues != [] || st.recommendations != [] || st.steps != [];
    if !hasIssues && Trim(response) != [] then
      ReviewResult(aspect, false, [NoSpecificIssues], [WellStructured], [KeepMonitoring])
    else if !hasIssues then
      ReviewResult(aspect, false, [NoIssues], [NoRecommendations], [NoAction])
    else
      ReviewResult(aspect, true, st.issues, st.recommendations, st.steps)
  }

  /** The two fallbacks differ in every list. */
  lemma FallbacksDiffer()
    ensures NoSpecificIssues != NoIssues && WellStructured != NoRecommendations && KeepMonitoring != NoAction
  {
    assert NoSpecificIssues[3] != NoIssues[3];
    assert WellStructured[0] != NoRecommendations[0];
    assert KeepMonitoring[0] != NoAction[0];
  }

  // ---------------------------------------------------------------------------
  // The response format the prompts ask for, and reading it back

  /** A section of the format: its header, then one dash line per item. */
  function RenderSection(header: string, items: seq<string>): (r: seq<string>)
    ensures |r| == |items| + 1 && r[0] == header && r[1..] == DashLines(items)
    ensures forall i :: 0 <= i < |items| ==> r[i + 1] == "- " + items[i]
  {
    [header] + DashLines(items)
  }

  /** One `- item` line per item. */
  function DashLines(items: seq<string>): (r: seq<string>)
    ensures |r| == |items|
    ensures forall i :: 0 <= i < |items| ==> r[i] == "- " + items[i]
    decreases |items|
  {
    if |items| == 0 then [] else ["- " + items[0]] + DashLines(items[1..])
  }

  /** The lines of a response in the format the prompts prescribe. */
  function RenderLines(issues: seq<string>, recommendations: seq<string>, steps: seq<string>): seq<string> {
    RenderSection("ISSUES:", issues) + RenderSection("RECOMMENDATIONS:", recommendations)
      + RenderSection("STEPS:", steps)
  }

  /** A response in the format the prompts prescribe. */
  function RenderReview(issues: seq<string>, recommendations: seq<string>, steps: seq<string>): string {
    Join(RenderLines(issues, recommendations, steps), "\n")
  }

  /** An item the format can carry and the parser keeps. */
  predicate Carried(item: string) {
    Kept(item) && IsTrimmed(item) && '\n' !in item
  }

  /** Every item is one the parser keeps as it is. */
  predicate AllKept(items: seq<string>) {
    forall i :: 0 <= i < |items| ==> Kept(items[i]) && IsTrimmed(items[i])
  }

  /** A dash line of a kept, trimmed item adds the item to the current
      section. */
  lemma DashLineAddsItem(st: ParseState, item: string)
    requires st.section != NoSection && Kept(item) && IsTrimmed(item)
    ensures ParseLine(st, "- " + item) == AppendItems(st, [item])
  {
    var line := "- " + item;
    assert Trim(line) == line by {
      assert line[|line| - 1] == item[|item| - 1];
      assert IsTrimmed(line);
      TrimmedIsFixpoint(line);
    }
    assert HeaderSection(line) == NoSection by {
      assert line[0] == '-';
    }
    assert StartsWith(line, "-") by {
      assert line[..1] == "-";
    }
    assert Trim(line[1..]) == item by {
      assert line[1..] == " " + item;
      TrimIgnoresLeadingSpace(" ", item);
      TrimmedIsFixpoint(item);
    }
  }

  /** Appending in two steps is appending once. */
  lemma AppendItemsTwice(st: ParseState, a: seq<string>, b: seq<string>)
    ensures AppendItems(AppendItems(st, a), b) == AppendItems(st, a + b)
  {
    match st.section
    case IssuesSection => assert st.issues + a + b == st.issues + (a + b);
    case RecommendationsSection => assert st.recommendations + a + b == st.recommendations + (a + b);
    case StepsSection => assert st.steps + a + b == st.steps + (a + b);
    case NoSection =>
  }

  /** The dash lines of a section append all their items, in order. */
  lemma {:induction false} DashLinesAddItems(st: ParseState, items: seq<string>)
    requires st.section != NoSection
    requires AllKept(items)
    ensures ParseLines(st, DashLines(items)) == AppendItems(st, items)
    decreases |items|
  {
    if |items| > 0 {
      var lines := DashLines(items);
      assert lines[0] == "- " + items[0] && lines[1..] == DashLines(items[1..]);
      DashLineAddsItem(st, items[0]);
      DashLinesAddItems(AppendItems(st, [items[0]]), items[1..]);
      AppendItemsTwice(st, [items[0]], items[1..]);
      assert [items[0]] + items[1..] == items;
    } else {
      match st.section
      case IssuesSection => assert st.issues + items == st.issues;
      case RecommendationsSection => assert st.recommendations + items == st.recommendations;
      case StepsSection => assert st.steps + items == st.steps;
    }
  }

  /** A whole section: the header switches, then its items are appended. */
  lemma SectionAddsItems(st: ParseState, header: string, items: seq<string>)
    requires HeaderSection(header) != NoSection && IsTrimmed(header)
    requires AllKept(items)
    ensures ParseLines(st, RenderSection(header, items)) == AppendItems(st.(section := HeaderSection(header)), items)
  {
    var lines := RenderSection(header, items);
    TrimmedIsFixpoint(header);
    assert lines == [header] + lines[1..];
    ParseLinesAppend(st, [header], lines[1..]);
    DashLinesAddItems(st.(section := HeaderSection(header)), items);
  }

  /** The lines of a rendered response hold no newline. */
  lemma RenderedLinesLackNewline(header: string, items: seq<string>)
    requires '\n' !in header
    requires forall i :: 0 <= i < |items| ==> '\n' !in items[i]
    ensures NoneContains(RenderSection(header, items), '\n')
  {
    var r := RenderSection(header, items);
    forall i | 0 <= i < |r| ensures '\n' !in r[i] {
      if i > 0 {
        assert r[i] == "- " + items[i - 1];
      }
    }
  }

  lemma RenderLinesLackNewline(issues: seq<string>, recommendations: seq<string>, steps: seq<string>)
    requires NoneContains(issues, '\n') && NoneContains(recommendations, '\n') && NoneContains(steps, '\n')
    ensures NoneContains(RenderLines(issues, recommendations, steps), '\n')
  {
    var a := RenderSection("ISSUES:", issues);
    var b := RenderSection("RECOMMENDATIONS:", recommendations);
    var c := RenderSection("STEPS:", steps);
    assert '\n' !in "ISSUES:" && '\n' !in "RECOMMENDATIONS:" && '\n' !in "STEPS:";
    RenderedLinesLackNewline("ISSUES:", issues);
    RenderedLinesLackNewline("RECOMMENDATIONS:", recommendations);
    RenderedLinesLackNewline("STEPS:", steps);
    NoneContainsConcat(a, b, '\n');
    NoneContainsConcat(a + b, c, '\n');
  }

  /** The three sections fill the three lists in turn. */
  lemma ParseRenderedLines(issues: seq<string>, recommendations: seq<string>, steps: seq<string>)
    requires AllKept(issues) && AllKept(recommendations) && AllKept(steps)
    ensures var st := ParseLines(StartState, RenderLines(issues, recommendations, steps));
      st.issues == issues && st.recommendations == recommendations && st.steps == steps
  {
    HeadersRecognised();
    ParseSections("ISSUES:", "RECOMMENDATIONS:", "STEPS:", issues, recommendations, steps);
  }

  lemma HeadersRecognised()
    ensures HeaderSection("ISSUES:") == IssuesSection && IsTrimmed("ISSUES:")
    ensures HeaderSection("RECOMMENDATIONS:") == RecommendationsSection && IsTrimmed("RECOMMENDATIONS:")
    ensures HeaderSection("STEPS:") == StepsSection && IsTrimmed("STEPS:")
  {
  }

  lemma ParseSections(h1: string, h2: string, h3: string,
                      issues: seq<string>, recommendations: seq<string>, steps: seq<string>)
    requires HeaderSection(h1) == IssuesSection && IsTrimmed(h1)
    requires HeaderSection(h2) == RecommendationsSection && IsTrimmed(h2)
    requires HeaderSection(h3) == StepsSection && IsTrimmed(h3)
    requires AllKept(issues) && AllKept(recommendations) && AllKept(steps)
    ensures var st := ParseLines(StartState, RenderSection(h1, issues) + RenderSection(h2, recommendations)
      + RenderSection(h3, steps));
      st.issues == issues && st.recommendations == recommendations && st.steps == steps
  {
    var a := RenderSection(h1, issues);
    var b := RenderSection(h2, recommendations);
    var c := RenderSection(h3, steps);
    ParseThree(StartState, a, b, c);
    SectionAddsItems(StartState, h1, issues);
    var s1 := ParseState(IssuesSection, issues, [], []);
    assert ParseLines(StartState, a) == s1;
    SectionAddsItems(s1, h2, recommendations);
    var s2 := ParseState(RecommendationsSection, issues, recommendations, []);
    assert ParseLines(s1, b) == s2;
    SectionAddsItems(s2, h3, steps);
  }

  /** Three blocks of lines read one after another. */
  lemma ParseThree(st: ParseState, a: seq<string>, b: seq<string>, c: seq<string>)
    ensures ParseLines(st, a + b + c) == ParseLines(ParseLines(ParseLines(st, a), b), c)
  {
    ParseLinesAppend(st, a + b, c);
    ParseLinesAppend(st, a, b);
  }

  /** A response in the prescribed format parses back to its three lists. */
  lemma ReviewRoundTrip(issues: seq<string>, recommendations: seq<string>, steps: seq<string>)
    requires forall i :: 0 <= i < |issues| ==> Carried(issues[i])
    requires forall i :: 0 <= i < |recommendations| ==> Carried(recommendations[i])
    requires forall i :: 0 <= i < |steps| ==> Carried(steps[i])
    ensures var st := ParseLines(StartState, Split(RenderReview(issues, recommendations, steps), '\n'));
      st.issues == issues && st.recommendations == recommendations && st.steps == steps
  {
    CarriedLackNewline(issues);
    CarriedLackNewline(recommendations);
    CarriedLackNewline(steps);
    RenderLinesLackNewline(issues, recommendations, steps);
    SplitJoin(RenderLines(issues, recommendations, steps), '\n');
    ParseRenderedLines(issues, recommendations, steps);
  }

  /** A prescribed-format response with at least one item is reported as
      it was written. */
  lemma ReviewParsesBack(issues: seq<string>, recommendations: seq<string>, steps: seq<string>, aspect: Aspect)
    requires forall i :: 0 <= i < |issues| ==> Carried(issues[i])
    requires forall i :: 0 <= i < |recommendations| ==> Carried(recommendations[i])
    requires forall i :: 0 <= i < |steps| ==> Carried(steps[i])
    requires issues != [] || recommendations != [] || steps != []
    ensures ParseReview(RenderReview(issues, recommendations, steps), aspect)
      == ReviewResult(aspect, true, issues, recommendations, steps)
  {
    ReviewRoundTrip(issues, recommendations, steps);
  }

  lemma CarriedLackNewline(items: seq<string>)
    requires forall i :: 0 <= i < |items| ==> Carried(items[i])
    ensures NoneContains(items, '\n')
  {
  }

  /** What each aspect's prompt asks for under ISSUES when nothing is wrong. */
  function CleanIssue(aspect: Aspect): string {
    match aspect
    case Bug => NoBugs
    case Performance => DroppedPhrases[1]
    case Security => DroppedPhrases[2]
    case Clarity => DroppedPhrases[3]
  }

  /** The answer each prompt prescribes when nothing is wrong still reports
      issues. The bug prompt's `No bugs detected` is not a dropped phrase and
      stays as the one issue; the other three prompts' ISSUES line is dropped,
      but `No recommendations needed` and `No action required` are never
      dropped, so the recommendation and the step remain. */
  lemma CleanTemplateReportsIssues(aspect: Aspect)
    ensures var r := ParseReview(RenderReview([CleanIssue(aspect)], [NoRecommendations], [NoAction]), aspect);
      && r.hasIssues
      && r.issues == (if aspect == Bug then [NoBugs] else [])
      && r.recommendations == [NoRecommendations] && r.steps == [NoAction]
  {
    if aspect == Bug {
      CleanBugTemplate(aspect);
    } else {
      CleanOtherTemplate(aspect);
    }
  }

  lemma CleanBugTemplate(aspect: Aspect)
    requires aspect == Bug
    ensures ParseReview(RenderReview([NoBugs], [NoRecommendations], [NoAction]), aspect)
      == ReviewResult(aspect, true, [NoBugs], [NoRecommendations], [NoAction])
  {
    CleanTemplateCarried();
    ReviewParsesBack([NoBugs], [NoRecommendations], [NoAction], aspect);
  }

  lemma CleanOtherTemplate(aspect: Aspect)
    requires aspect != Bug
    ensures ParseReview(RenderReview([CleanIssue(aspect)], [NoRecommendations], [NoAction]), aspect)
      == ReviewResult(aspect, true, [], [NoRecommendations], [NoAction])
  {
    CleanTemplateCarried();
    CleanIssueDropped(aspect);
    DroppedIssueReportsPair(CleanIssue(aspect), NoRecommendations, NoAction, aspect);
  }

  /** `DroppedIssueReportsRest` for one recommendation and one step. */
  lemma DroppedIssueReportsPair(p: string, recommendation: string, step: string, aspect: Aspect)
    requires !Kept(p) && IsTrimmed(p) && p != [] && '\n' !in p
    requires Carried(recommendation) && Carried(step)
    ensures ParseReview(RenderReview([p], [recommendation], [step]), aspect)
      == ReviewResult(aspect, true, [], [recommendation], [step])
  {
    DroppedIssueReportsRest(p, [recommendation], [step], aspect);
  }

  /** A prescribed-format response whose only issue is one the parser drops
      reports the rest as it was written, with no issue. */
  lemma DroppedIssueReportsRest(p: string, recommendations: seq<string>, steps: seq<string>, aspect: Aspect)
    requires !Kept(p) && IsTrimmed(p) && p != [] && '\n' !in p
    requires forall i :: 0 <= i < |recommendations| ==> Carried(recommendations[i])
    requires forall i :: 0 <= i < |steps| ==> Carried(steps[i])
    requires recommendations != [] || steps != []
    ensures ParseReview(RenderReview([p], recommendations, steps), aspect)
      == ReviewResult(aspect, true, [], recommendations, steps)
  {
    CarriedLackNewline(recommendations);
    CarriedLackNewline(steps);
    RenderLinesLackNewline([p], recommendations, steps);
    SplitJoin(RenderLines([p], recommendations, steps), '\n');
    DroppedSectionIsEmpty(p, recommendations, steps);
    ParseRenderedLines([], recommendations, steps);
  }

  /** An answer whose only items are the two closing lines every clean
      template shares reports issues, with no issue in the list. */
  lemma CleanTailReportsIssues(aspect: Aspect)
    ensures ParseReview(RenderReview([], [NoRecommendations], [NoAction]), aspect)
      == ReviewResult(aspect, true, [], [NoRecommendations], [NoAction])
  {
    CleanTemplateCarried();
    ReviewParsesBack([], [NoRecommendations], [NoAction], aspect);
  }

  /** Outside the bug prompt, the clean ISSUES line is one the parser drops. */
  lemma CleanIssueDropped(aspect: Aspect)
    requires aspect != Bug
    ensures !Kept(CleanIssue(aspect)) && IsTrimmed(CleanIssue(aspect)) && CleanIssue(aspect) != []
    ensures '\n' !in CleanIssue(aspect)
  {
    var p := CleanIssue(aspect);
    assert p in DroppedPhrases;
    assert StartsWith(p, p) by { assert p[..|p|] == p; }
    match aspect
    case Performance => DetectedPhrase("No performance ");
    case Security => DetectedPhrase("No security ");
    case Clarity => DetectedPhrase("No clarity ");
  }

  /** A "No ... issues detected" phrase is one trimmed line. */
  lemma DetectedPhrase(pre: string)
    requires pre != [] && !IsSpace(pre[0]) && '\n' !in pre
    ensures var phrase := pre + IssuesWord + " detected";
      phrase != [] && IsTrimmed(phrase) && '\n' !in phrase
  {
    var tail := IssuesWord + " detected";
    var phrase := pre + tail;
    assert pre + IssuesWord + " detected" == phrase;
    assert phrase[0] == pre[0];
    assert phrase[|phrase| - 1] == tail[|tail| - 1] == 'd';
    assert '\n' !in tail;
  }

  /** A dropped item in the ISSUES section reads as no item at all. */
  lemma DroppedSectionIsEmpty(p: string, recommendations: seq<string>, steps: seq<string>)
    requires !Kept(p) && IsTrimmed(p) && p != []
    ensures ParseLines(StartState, RenderLines([p], recommendations, steps))
      == ParseLines(StartState, RenderLines([], recommendations, steps))
  {
    var b := RenderSection("RECOMMENDATIONS:", recommendations);
    var c := RenderSection("STEPS:", steps);
    HeadersRecognised();
    TrimmedIsFixpoint("ISSUES:");
    var a1 := RenderSection("ISSUES:", [p]);
    var a0 := RenderSection("ISSUES:", []);
    ParseThree(StartState, a1, b, c);
    ParseThree(StartState, a0, b, c);
    var s := StartState.(section := IssuesSection);
    assert a1 == ["ISSUES:"] + ["- " + p];
    ParseLinesAppend(StartState, ["ISSUES:"], ["- " + p]);
    DashLineDropsItem(s, p);
    assert ParseLines(StartState, a1) == s;
    assert ParseLines(StartState, a0) == s;
  }

  /** A dash line whose item the parser does not keep changes nothing. */
  lemma DashLineDropsItem(st: ParseState, item: string)
    requires st.section != NoSection && !Kept(item) && IsTrimmed(item) && item != []
    ensures ParseLine(st, "- " + item) == st
  {
    var line := "- " + item;
    assert Trim(line) == line by {
      assert line[|line| - 1] == item[|item| - 1];
      assert IsTrimmed(line);
      TrimmedIsFixpoint(line);
    }
    assert HeaderSection(line) == NoSection by {
      assert line[0] == '-';
    }
    assert Trim(line[1..]) == item by {
      assert line[1..] == " " + item;
      TrimIgnoresLeadingSpace(" ", item);
      TrimmedIsFixpoint(item);
    }
  }

  lemma CleanTemplateCarried()
    ensures Carried(NoBugs) && Carried(NoRecommendations) && Carried(NoAction)
  {
    NoBugsCarried();
    NoRecommendationsCarried();
    NoActionCarried();
  }

  lemma NoBugsCarried() ensures Carried(NoBugs) { NotKeptPhrasesAbsent(NoBugs, 'i'); }
  lemma NoRecommendationsCarried() ensures Carried(NoRecommendations) { NotKeptPhrasesAbsent(NoRecommendations, 'u'); }
  lemma NoActionCarried() ensures Carried(NoAction) { NotKeptPhrasesAbsent(NoAction, 's'); }

  /** A string lacking a letter every dropped phrase has is kept. */
  lemma NotKeptPhrasesAbsent(s: string, c: char)
    requires s != [] && c in IssuesWord && c !in s
    ensures Kept(s)
  {
    forall phrase | phrase in DroppedPhrases ensures !Contains(s, phrase) {
      PhrasesMentionIssues(c, phrase);
      MissingCharNotContained(s, phrase, c);
    }
  }

  /** Every dropped phrase has the letters of "issues". */
  lemma PhrasesMentionIssues(c: char, phrase: string)
    requires c in IssuesWord && phrase in DroppedPhrases
    ensures c in phrase
  {
    if phrase == DroppedPhrases[0] {
      LettersOfWord(c, "No ", " detected");
    } else if phrase == DroppedPhrases[1] {
      LettersOfWord(c, "No performance ", " detected");
    } else if phrase == DroppedPhrases[2] {
      LettersOfWord(c, "No security ", " detected");
    } else {
      LettersOfWord(c, "No clarity ", " detected");
    }
  }

  /** A text with "issues" in it has each of its letters. */
  lemma LettersOfWord(c: char, before: string, after: string)
    requires c in IssuesWord
    ensures c in before + IssuesWord + after
  {
    var j :| 0 <= j < |IssuesWord| && IssuesWord[j] == c;
    assert (before + IssuesWord + after)[|before| + j] == c;
  }

  // ---------------------------------------------------------------------------
  // The aspects and performCodeReview

  const CheckKeyAdvice: string := "Check API key and network connection"
  const FailureSteps: seq<string> := ["Verify Gemini API key", "Check internet connection", "Retry analysis"]

  /** The message an aspect reports for a thrown value. */
  function ThrownMessage(t: Thrown): string {
    t.MessageOr("Unknown error occurred")
  }

  /** The result an aspect returns when its call throws. */
  function FailureResult(aspect: Aspect, t: Thrown): (r: ReviewResult)
    ensures r.hasIssues && r.aspect == aspect
    ensures r.issues == ["API call failed: " + ThrownMessage(t)]
    ensures r.recommendations == [CheckKeyAdvice] && r.steps == FailureSteps
  {
    ReviewResult(aspect, true, ["API call failed: " + ThrownMessage(t)], [CheckKeyAdvice], FailureSteps)
  }

  /** One aspect: parse the reply, or report the failure. */
  function ReviewAspect(aspect: Aspect, outcome: Result<string, Thrown>): (r: ReviewResult)
    ensures r.aspect == aspect
    ensures outcome.Success? ==> r == ParseReview(outcome.value, aspect)
    ensures outcome.Failure? ==> r == FailureResult(aspect, outcome.error)
  {
    match outcome
    case Success(text) => ParseReview(text, aspect)
    case Failure(t) => FailureResult(aspect, t)
  }

  /** The attempts of one aspect's call, given the code that was sent. */
  type Attempts = (Aspect, string, nat) -> Attempt

  function AspectCall(attempts: Attempts, aspect: Aspect, code: string): Call {
    CallGemini((k: nat) => attempts(aspect, code, k))
  }

  /** `performCodeReview(code, fileName, apiKey)`: the guard, then the four
      aspects in order on the (possibly truncated) code. An aspect's failure
      stays in its own entry; the guard's error is the only one thrown. */
  function PerformCodeReview(code: string, apiKey: string, attempts: Attempts): (r: Result<seq<ReviewResult>, string>)
    ensures CheckInput(code, apiKey).Some? ==> r == Failure(CheckInput(code, apiKey).value)
    ensures CheckInput(code, apiKey).None? ==> r.Success? && |r.value| == 4
    ensures r.Success? ==> forall i :: 0 <= i < |r.value| ==>
      r.value[i].aspect == AspectOrder[i] &&
      r.value[i] == ReviewAspect(AspectOrder[i], AspectCall(attempts, AspectOrder[i], Truncate(code)).result)
  {
    match CheckInput(code, apiKey)
    case Some(message) => Failure(message)
    case None =>
      var sent := Truncate(code);
      Success(seq(4, i requires 0 <= i < 4 =>
        ReviewAspect(AspectOrder[i], AspectCall(attempts, AspectOrder[i], sent).result)))
  }

  /** Per-aspect isolation: an aspect's entry depends only on its own
      attempts, so what happens to the other aspects' calls cannot change
      it. */
  lemma AspectIsolation(code: string, apiKey: string, attempts: Attempts, attempts': Attempts, i: nat)
    requires i < 4
    requires forall k :: attempts(AspectOrder[i], Truncate(code), k) == attempts'(AspectOrder[i], Truncate(code), k)
    ensures var r := PerformCodeReview(code, apiKey, attempts);
      var r' := PerformCodeReview(code, apiKey, attempts');
      r.Success? ==> r'.Success? && r.value[i] == r'.value[i]
  {
    var a := AspectOrder[i];
    var sent := Truncate(code);
    var f := (k: nat) => attempts(a, sent, k);
    var f' := (k: nat) => attempts'(a, sent, k);
    CallsAgree(f, f', 0);
  }

  /** Two attempt oracles that agree give the same call. */
  lemma {:induction false} CallsAgree(f: nat -> Attempt, g: nat -> Attempt, retryCount: nat)
    requires retryCount <= MaxRetries
    requires forall k :: f(k) == g(k)
    ensures CallFrom(f, retryCount) == CallFrom(g, retryCount)
    decreases MaxRetries - retryCount
  {
    if retryCount < MaxRetries {
      CallsAgree(f, g, retryCount + 1);
    }
  }
}
