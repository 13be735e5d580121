/** The four-stage agent pipeline of `src/utils/AgentSystem.ts` (thinking,
    observations, approach, plan), the numbered-list parser and renderer that
    carry observations from one stage to the next, and the error fallbacks
    of the context-aware observation and approach agents in
    `src/utils/agents/`. Every model call is an oracle from the request it
    is given to its reply text or the value it threw. */
module Pipeline {

  import opened Wrappers
  import opened Strings
  import opened Parsing

  // ---------------------------------------------------------------------------
  // Observation lines:  text.split('\n').filter(l => l.trim().match(/^\d+\./))
  //                          .map(l => l.replace(/^\d+\.\s*/, ''))

  /** `^\d+\.`: a run of digits, then a dot. */
  predicate StartsNumbered(t: string) {
    var d := Span(t, 0, IsDigit);
    0 < d < |t| && t[d] == '.'
  }

  /** A line the filter keeps: numbered once trimmed. */
  predicate IsObservationLine(line: string) {
    StartsNumbered(Trim(line))
  }

  /** `lines.filter(keep).map(f)`. */
  function KeepMap(lines: seq<string>, keep: string -> bool, f: string -> string): (r: seq<string>)
    ensures |r| <= |lines|
    decreases |lines|
  {
    if |lines| == 0 then []
    else if keep(lines[0]) then [f(lines[0])] + KeepMap(lines[1..], keep, f)
    else KeepMap(lines[1..], keep, f)
  }

  /** The kept lines, each with its number prefix removed from the raw line. */
  function ObservationLines(lines: seq<string>): (r: seq<string>)
    ensures |r| <= |lines|
  {
    KeepMap(lines, IsObservationLine, StripNumberPrefix)
  }

  /** The observation parser. */
  function ParseObservations(text: string): (r: seq<string>)
    ensures |r| <= |Split(text, '\n')|
  {
    ObservationLines(Split(text, '\n'))
  }

  /** Which lines a filter-and-map picked: `idx` lists, in increasing order,
      the positions of exactly the kept lines, and item `i` is line `idx[i]`
      mapped. */
  ghost predicate PickedFrom(lines: seq<string>, keep: string -> bool, f: string -> string,
                             r: seq<string>, idx: seq<nat>) {
    && |idx| == |r|
    && (forall i :: 0 <= i < |idx| ==> (idx[i] < |lines| && keep(lines[idx[i]]) && r[i] == f(lines[idx[i]])))
    && (forall i, j :: 0 <= i < j < |idx| ==> idx[i] < idx[j])
    && (forall k :: 0 <= k < |lines| && keep(lines[k]) ==> k in idx)
  }

  /** A filter-and-map keeps every line the filter accepts, drops every
      other, and keeps their order. */
  lemma {:induction false} KeepMapSources(lines: seq<string>, keep: string -> bool, f: string -> string)
    returns (idx: seq<nat>)
    ensures PickedFrom(lines, keep, f, KeepMap(lines, keep, f), idx)
    decreases |lines|
  {
    if |lines| == 0 {
      idx := [];
    } else {
      var rest := KeepMapSources(lines[1..], keep, f);
      var shifted := ShiftPicks(lines, keep, f, rest);
      if keep(lines[0]) {
        idx := [0] + shifted;
        PickedCons(lines, keep, f, shifted);
      } else {
        idx := shifted;
        PickedSkip(lines, keep, f, shifted);
      }
    }
  }

  /** Picks in the tail of a list, as positions in the whole list. */
  ghost predicate PickedInTail(lines: seq<string>, keep: string -> bool, f: string -> string, shifted: seq<nat>)
    requires |lines| > 0
  {
    var tail := KeepMap(lines[1..], keep, f);
    && |shifted| == |tail|
    && (forall i :: 0 <= i < |shifted| ==>
          (1 <= shifted[i] < |lines| && keep(lines[shifted[i]]) && tail[i] == f(lines[shifted[i]])))
    && (forall i, j :: 0 <= i < j < |shifted| ==> shifted[i] < shifted[j])
    && (forall k :: 1 <= k < |lines| && keep(lines[k]) ==> k in shifted)
  }

  lemma ShiftPicks(lines: seq<string>, keep: string -> bool, f: string -> string, rest: seq<nat>)
    returns (shifted: seq<nat>)
    requires |lines| > 0 && PickedFrom(lines[1..], keep, f, KeepMap(lines[1..], keep, f), rest)
    ensures PickedInTail(lines, keep, f, shifted)
  {
    var tail := KeepMap(lines[1..], keep, f);
    shifted := seq(|rest|, i requires 0 <= i < |rest| => rest[i] + 1);
    ShiftedItems(lines, lines[1..], keep, f, tail, rest, shifted);
    ShiftedOrder(rest, shifted);
    ShiftedCover(lines, lines[1..], keep, rest, shifted);
  }

  lemma ShiftedItems(lines: seq<string>, t: seq<string>, keep: string -> bool, f: string -> string,
                     tail: seq<string>, rest: seq<nat>, shifted: seq<nat>)
    requires |lines| > 0 && t == lines[1..] && |rest| == |tail| == |shifted|
    requires forall i :: 0 <= i < |rest| ==> (rest[i] < |t| && keep(t[rest[i]]) && tail[i] == f(t[rest[i]]))
    requires forall i :: 0 <= i < |shifted| ==> shifted[i] == rest[i] + 1
    ensures forall i :: 0 <= i < |shifted| ==>
          (1 <= shifted[i] < |lines| && keep(lines[shifted[i]]) && tail[i] == f(lines[shifted[i]]))
  {
    forall i | 0 <= i < |shifted|
      ensures 1 <= shifted[i] < |lines| && keep(lines[shifted[i]]) && tail[i] == f(lines[shifted[i]])
    {
      assert lines[shifted[i]] == t[rest[i]];
    }
  }

  lemma ShiftedOrder(rest: seq<nat>, shifted: seq<nat>)
    requires |rest| == |shifted| && forall i :: 0 <= i < |shifted| ==> shifted[i] == rest[i] + 1
    requires forall i, j :: 0 <= i < j < |rest| ==> rest[i] < rest[j]
    ensures forall i, j :: 0 <= i < j < |shifted| ==> shifted[i] < shifted[j]
  {
    forall i, j | 0 <= i < j < |shifted| ensures shifted[i] < shifted[j] {
      assert rest[i] < rest[j];
    }
  }

  lemma ShiftedCover(lines: seq<string>, t: seq<string>, keep: string -> bool, rest: seq<nat>, shifted: seq<nat>)
    requires |lines| > 0 && t == lines[1..] && |rest| == |shifted|
    requires forall i :: 0 <= i < |shifted| ==> shifted[i] == rest[i] + 1
    requires forall k :: 0 <= k < |t| && keep(t[k]) ==> k in rest
    ensures forall k :: 1 <= k < |lines| && keep(lines[k]) ==> k in shifted
  {
    forall k | 1 <= k < |lines| && keep(lines[k]) ensures k in shifted {
      assert t[k - 1] == lines[k];
      assert k - 1 in rest;
      var i :| 0 <= i < |rest| && rest[i] == k - 1;
      assert shifted[i] == k;
    }
  }

  lemma PickedCons(lines: seq<string>, keep: string -> bool, f: string -> string, shifted: seq<nat>)
    requires |lines| > 0 && keep(lines[0]) && PickedInTail(lines, keep, f, shifted)
    ensures PickedFrom(lines, keep, f, KeepMap(lines, keep, f), [0] + shifted)
  {
    var tail := KeepMap(lines[1..], keep, f);
    var idx := [0] + shifted;
    var r := [f(lines[0])] + tail;
    assert KeepMap(lines, keep, f) == r;
    forall i | 0 <= i < |idx| ensures idx[i] < |lines| && keep(lines[idx[i]]) && r[i] == f(lines[idx[i]]) {
      if i > 0 {
        assert idx[i] == shifted[i - 1] && r[i] == tail[i - 1];
      }
    }
    forall i, j | 0 <= i < j < |idx| ensures idx[i] < idx[j] {
      assert idx[j] == shifted[j - 1];
      if i > 0 {
        assert idx[i] == shifted[i - 1];
      }
    }
    forall k | 0 <= k < |lines| && keep(lines[k]) ensures k in idx {
      if k > 0 {
        assert k in shifted;
      }
    }
  }

  lemma PickedSkip(lines: seq<string>, keep: string -> bool, f: string -> string, shifted: seq<nat>)
    requires |lines| > 0 && !keep(lines[0]) && PickedInTail(lines, keep, f, shifted)
    ensures PickedFrom(lines, keep, f, KeepMap(lines, keep, f), shifted)
  {
    assert KeepMap(lines, keep, f) == KeepMap(lines[1..], keep, f);
  }

  /** The observation parser keeps exactly the numbered lines, in order,
      each without its number. */
  lemma ObservationSources(lines: seq<string>) returns (idx: seq<nat>)
    ensures PickedFrom(lines, IsObservationLine, StripNumberPrefix, ObservationLines(lines), idx)
  {
    idx := KeepMapSources(lines, IsObservationLine, StripNumberPrefix);
  }

  /** A list without numbered lines parses to nothing. */
  lemma {:induction false} NoObservationLines(lines: seq<string>)
    requires forall k :: 0 <= k < |lines| ==> !IsObservationLine(lines[k])
    ensures ObservationLines(lines) == []
    decreases |lines|
  {
    if |lines| > 0 {
      NoObservationLines(lines[1..]);
    }
  }

  /** A reply without numbered lines gives no observations (not an error). */
  lemma NoNumberedLines(text: string)
    requires forall k :: 0 <= k < |Split(text, '\n')| ==> !IsObservationLine(Split(text, '\n')[k])
    ensures ParseObservations(text) == []
  {
    NoObservationLines(Split(text, '\n'));
  }

  /** An indented numbered line is kept, but with its number. */
  lemma IndentedLineKeepsNumber(line: string)
    requires IsObservationLine(line) && IsSpace(line[0])
    ensures ObservationLines([line]) == [line]
  {
  }

  // ---------------------------------------------------------------------------
  // Observation numbering in the approach prompt:  observations.map((o, i) => `${i + 1}. ${o}`).join('\n')

  function RenderObservations(observations: seq<string>): (r: string)
    ensures observations == [] ==> r == ""
  {
    Join(NumberLines(observations, 1), "\n")
  }

  /** An item that survives a trip through the numbered list: one line, not
      starting with whitespace. */
  predicate IsPlainItem(item: string) {
    '\n' !in item && (|item| == 0 || !IsSpace(item[0]))
  }

  /** Rendering observations as a numbered list and parsing the list gives
      back the observations. */
  lemma ObservationsRoundTrip(observations: seq<string>)
    requires forall i :: 0 <= i < |observations| ==> IsPlainItem(observations[i])
    ensures ParseObservations(RenderObservations(observations)) == observations
  {
    var lines := NumberLines(observations, 1);
    if |observations| == 0 {
      assert Split("", '\n') == [""] by { SplitNoSeparator("", '\n'); }
      TrimmedIsFixpoint("");
    } else {
      forall i | 0 <= i < |lines| ensures '\n' !in lines[i] {
        NumberedLineShape(1 + i, observations[i]);
      }
      SplitJoin(lines, '\n');
      NumberedLinesParse(observations, 1);
    }
  }

  /** Each numbered line is kept and loses exactly its number. */
  lemma {:induction false} NumberedLinesParse(items: seq<string>, first: nat)
    requires forall i :: 0 <= i < |items| ==> IsPlainItem(items[i])
    ensures ObservationLines(NumberLines(items, first)) == items
    decreases |items|
  {
    if |items| > 0 {
      var lines := NumberLines(items, first);
      NumberedLineKept(first, items[0]);
      NumberedLineRoundTrip(first, items[0]);
      assert lines[1..] == NumberLines(items[1..], first + 1);
      NumberedLinesParse(items[1..], first + 1);
    }
  }

  /** A numbered line passes the filter. */
  lemma NumberedLineKept(n: nat, text: string)
    ensures IsObservationLine(NumberedLine(n, text))
  {
    var line := NumberedLine(n, text);
    var d := |NatToString(n)|;
    assert line[d] == '.';
    NumberedLineShape(n, text);
    var a, b := TrimSlice(line);
    var t := Trim(line);
    assert forall k :: 0 <= k <= d ==> t[k] == line[k];
    assert t[d] == '.';
    assert forall k :: 0 <= k < d ==> IsDigit(t[k]);
    assert Span(t, 0, IsDigit) == d by {
      SpanFrom(t, 0, d, IsDigit);
    }
  }

  // ---------------------------------------------------------------------------
  // Prompt templates: fixed text with the inputs in between

  /** A template: `labels[0] + inputs[0] + labels[1] + ... + labels[n]`. */
  function Fill(labels: seq<string>, inputs: seq<string>): string
    requires |labels| == |inputs| + 1
    decreases |inputs|
  {
    if |inputs| == 0 then labels[0] else labels[0] + inputs[0] + Fill(labels[1..], inputs[1..])
  }

  /** Where input `i` lands in the filled template. */
  function InputPosition(labels: seq<string>, inputs: seq<string>, i: nat): nat
    requires |labels| == |inputs| + 1 && i < |inputs|
    decreases i
  {
    if i == 0 then |labels[0]| else |labels[0]| + |inputs[0]| + InputPosition(labels[1..], inputs[1..], i - 1)
  }

  /** Every input appears in the filled template, each one after the one
      before it. */
  lemma {:induction false} InputsInOrder(labels: seq<string>, inputs: seq<string>, i: nat)
    requires |labels| == |inputs| + 1 && i < |inputs|
    ensures OccursAt(Fill(labels, inputs), inputs[i], InputPosition(labels, inputs, i))
    ensures i + 1 < |inputs| ==>
      InputPosition(labels, inputs, i) + |inputs[i]| <= InputPosition(labels, inputs, i + 1)
    decreases i
  {
    var head := labels[0] + inputs[0];
    var tail := Fill(labels[1..], inputs[1..]);
    assert Fill(labels, inputs) == head + tail;
    if i == 0 {
      OccursInConcat(labels[0], inputs[0], inputs[0], 0);
      OccursInConcat(head, tail, inputs[0], |labels[0]|);
    } else {
      var j := i - 1;
      var later, rest := labels[1..], inputs[1..];
      InputsInOrder(later, rest, j);
      assert rest[j] == inputs[i];
      OccursInConcat(head, tail, inputs[i], InputPosition(later, rest, j));
    }
  }

  const ObservationLabels: seq<string> := [
    "You are an expert code reviewer. Based on the intelligent analysis, provide key observations:\n\nFile: ",
    "\nUser Request: ",
    "\nCurrent Code:\n",
    "\n\nIntelligent Analysis Result:\n",
    "\n\nTask: Generate 3-5 key observations about the current state and what needs to be improved.\n\nRespond with ONLY a numbered list of observations, one per line."]

  const ApproachLabels: seq<string> := [
    "You are an expert software architect. Based on the intelligent analysis and observations, define the approach:\n\nFile: ",
    "\nUser Request: ",
    "\nCurrent Code:\n",
    "\n\nIntelligent Analysis Result:\n",
    "\n\nKey Observations:\n",
    "\n\nTask: Define a high-level approach that addresses the observations and achieves the user's goal.\n\nRespond with ONLY the approach description in clear, structured paragraphs."]

  /** The inputs the observation prompt embeds, in order. */
  function ObservationInputs(fileName: string, request: string, code: string, thinking: string): seq<string> {
    [fileName, request, code, thinking]
  }

  /** The inputs the approach prompt embeds, in order: the observations come
      last, numbered. */
  function ApproachInputs(fileName: string, request: string, code: string, thinking: string,
                          observations: seq<string>): seq<string> {
    [fileName, request, code, thinking, RenderObservations(observations)]
  }

  function ObservationPrompt(fileName: string, request: string, code: string, thinking: string): string {
    Fill(ObservationLabels, ObservationInputs(fileName, request, code, thinking))
  }

  function ApproachPrompt(fileName: string, request: string, code: string, thinking: string,
                          observations: seq<string>): string {
    Fill(ApproachLabels, ApproachInputs(fileName, request, code, thinking, observations))
  }

  /** The observation prompt holds the file name, the request, the code and
      the analysis, in that order. */
  lemma ObservationPromptEmbeds(fileName: string, request: string, code: string, thinking: string, i: nat)
    requires i < 4
    ensures var inputs := ObservationInputs(fileName, request, code, thinking);
      && OccursAt(ObservationPrompt(fileName, request, code, thinking), inputs[i],
           InputPosition(ObservationLabels, inputs, i))
      && (i < 3 ==> InputPosition(ObservationLabels, inputs, i) + |inputs[i]|
                      <= InputPosition(ObservationLabels, inputs, i + 1))
  {
    InputsInOrder(ObservationLabels, ObservationInputs(fileName, request, code, thinking), i);
  }

  /** The approach prompt holds the file name, the request, the code, the
      analysis and then the numbered observations. */
  lemma ApproachPromptEmbeds(fileName: string, request: string, code: string, thinking: string,
                             observations: seq<string>, i: nat)
    requires i < 5
    ensures var inputs := ApproachInputs(fileName, request, code, thinking, observations);
      && OccursAt(ApproachPrompt(fileName, request, code, thinking, observations), inputs[i],
           InputPosition(ApproachLabels, inputs, i))
      && (i < 4 ==> InputPosition(ApproachLabels, inputs, i) + |inputs[i]|
                      <= InputPosition(ApproachLabels, inputs, i + 1))
  {
    InputsInOrder(ApproachLabels, ApproachInputs(fileName, request, code, thinking, observations), i);
  }

  // ---------------------------------------------------------------------------
  // The context-aware agents: a failure becomes a fixed literal

  const ObservationsFallback: string := "Error generating observations"
  const ApproachFallback: string := "Error defining approach"

  /** `EnhancedObservationAgent.generateObservations`, given the reply to
      its prompt. */
  function GenerateObservations(reply: Result<string, Thrown>): (r: seq<string>)
    ensures reply.Failure? ==> r == [ObservationsFallback]
    ensures reply.Success? ==> r == ParseObservations(reply.value)
  {
    match reply
    case Success(text) => ParseObservations(text)
    case Failure(_) => [ObservationsFallback]
  }

  /** `ApproachAgent.defineApproach`, given the reply to its prompt. */
  function DefineApproach(reply: Result<string, Thrown>): (r: string)
    ensures reply.Success? ==> r == reply.value
    ensures reply.Failure? ==> r == ApproachFallback
  {
    match reply
    case Success(text) => text
    case Failure(_) => ApproachFallback
  }

  /** The fallback reads as one observation when it is numbered into the
      approach prompt. */
  lemma FallbackRoundTrips()
    ensures ParseObservations(RenderObservations([ObservationsFallback])) == [ObservationsFallback]
  {
    assert IsPlainItem(ObservationsFallback) by {
      assert ObservationsFallback[0] == 'E';
      assert forall k :: 0 <= k < |ObservationsFallback| ==> ObservationsFallback[k] != '\n';
    }
    ObservationsRoundTrip([ObservationsFallback]);
  }

  // ---------------------------------------------------------------------------
  // AgentOrchestrator

  /** What each stage's agent is asked: the thinking goes to no later stage,
      the approach sees the observations and the plan sees the approach. */
  datatype StageRequest =
    | AnalyzeRequest(code: string, prompt: string, fileName: string)
    | ObserveRequest(code: string, prompt: string, fileName: string)
    | ApproachRequest(code: string, prompt: string, fileName: string, observations: seq<string>)
    | PlanRequest(code: string, prompt: string, fileName: string, approach: string)

  /** The model's reply to a stage, or what its call threw. */
  type Agents = StageRequest -> Result<string, Thrown>

  datatype AgentResponse = AgentResponse(thinking: string, observations: seq<string>, approach: string,
                                         detailedPlan: string)

  datatype StageKind = ThinkingStage | ObservationsStage | ApproachStage | PlanStage

  const StageOrder: seq<StageKind> := [ThinkingStage, ObservationsStage, ApproachStage, PlanStage]

  /** A streaming notification; `points` is present only for observations. */
  datatype Notification = Notification(kind: StageKind, content: string, isComplete: bool,
                                       points: Option<seq<string>>)

  /** `executeAgenticLoop`: the four stages in order; the first failure
      propagates. */
  function ExecuteAgenticLoop(agents: Agents, code: string, prompt: string, fileName: string)
    : (r: Result<AgentResponse, Thrown>)
    ensures r.Success? ==>
      && agents(AnalyzeRequest(code, prompt, fileName)) == Success(r.value.thinking)
      && agents(ObserveRequest(code, prompt, fileName)).Success?
      && r.value.observations == ParseObservations(agents(ObserveRequest(code, prompt, fileName)).value)
      && agents(ApproachRequest(code, prompt, fileName, r.value.observations)) == Success(r.value.approach)
      && agents(PlanRequest(code, prompt, fileName, r.value.approach)) == Success(r.value.detailedPlan)
    ensures agents(AnalyzeRequest(code, prompt, fileName)).Failure? ==>
      r == Failure(agents(AnalyzeRequest(code, prompt, fileName)).error)
  {
    match agents(AnalyzeRequest(code, prompt, fileName))
    case Failure(e) => Failure(e)
    case Success(thinking) =>
      match agents(ObserveRequest(code, prompt, fileName))
      case Failure(e) => Failure(e)
      case Success(text) =>
        var observations := ParseObservations(text);
        match agents(ApproachRequest(code, prompt, fileName, observations))
        case Failure(e) => Failure(e)
        case Success(approach) =>
          match agents(PlanRequest(code, prompt, fileName, approach))
          case Failure(e) => Failure(e)
          case Success(plan) => Success(AgentResponse(thinking, observations, approach, plan))
  }

  /** The notifications a completed response is streamed as. */
  function Notifications(resp: AgentResponse): seq<Notification> {
    [ Notification(ThinkingStage, resp.thinking, true, None),
      Notification(ObservationsStage, "", true, Some(resp.observations)),
      Notification(ApproachStage, resp.approach, true, None),
      Notification(PlanStage, resp.detailedPlan, true, None) ]
  }

  /** What the streaming loop did: the notifications it sent and the error
      it rethrew, if any. */
  datatype StreamRun = StreamRun(notes: seq<Notification>, error: Option<Thrown>)

  /** `executeStreamingAgenticLoop`: one notification after each stage; a
      failing stage sends nothing and its error is rethrown. */
  function ExecuteStreamingAgenticLoop(agents: Agents, code: string, prompt: string, fileName: string)
    : (r: StreamRun)
    ensures |r.notes| <= 4
    ensures forall i :: 0 <= i < |r.notes| ==> r.notes[i].kind == StageOrder[i] && r.notes[i].isComplete
    ensures forall i :: 0 <= i < |r.notes| ==> (r.notes[i].points.Some? <==> r.notes[i].kind == ObservationsStage)
    ensures forall i :: 0 <= i < |r.notes| ==> r.notes[i].kind == ObservationsStage ==> r.notes[i].content == ""
    ensures r.error.None? <==> |r.notes| == 4
  {
    match agents(AnalyzeRequest(code, prompt, fileName))
    case Failure(e) => StreamRun([], Some(e))
    case Success(thinking) =>
      var n1 := Notification(ThinkingStage, thinking, true, None);
      match agents(ObserveRequest(code, prompt, fileName))
      case Failure(e) => StreamRun([n1], Some(e))
      case Success(text) =>
        var observations := ParseObservations(text);
        var n2 := Notification(ObservationsStage, "", true, Some(observations));
        match agents(ApproachRequest(code, prompt, fileName, observations))
        case Failure(e) => StreamRun([n1, n2], Some(e))
        case Success(approach) =>
          var n3 := Notification(ApproachStage, approach, true, None);
          match agents(PlanRequest(code, prompt, fileName, approach))
          case Failure(e) => StreamRun([n1, n2, n3], Some(e))
          case Success(plan) => StreamRun([n1, n2, n3, Notification(PlanStage, plan, true, None)], None)
  }

  /** Streaming and non-streaming runs agree: the stream completes exactly
      when the direct run succeeds, its notifications carry the direct
      run's four outputs, and both report the same error. */
  lemma StreamingMatchesDirect(agents: Agents, code: string, prompt: string, fileName: string)
    ensures var direct := ExecuteAgenticLoop(agents, code, prompt, fileName);
      var stream := ExecuteStreamingAgenticLoop(agents, code, prompt, fileName);
      && (direct.Success? <==> stream.error.None?)
      && (direct.Success? ==> stream.notes == Notifications(direct.value))
      && (direct.Failure? ==> stream.error == Some(direct.error))
  {
  }

  /** A failure at stage `k` (counted from 1) leaves exactly `k - 1`
      notifications sent: the stage that failed is the one after the last
      notification. */
  lemma FailedStageIsNext(agents: Agents, code: string, prompt: string, fileName: string)
    ensures var stream := ExecuteStreamingAgenticLoop(agents, code, prompt, fileName);
      stream.error.Some? ==> stream.error.value == StageReply(agents, code, prompt, fileName, |stream.notes|).error
  {
    if agents(AnalyzeRequest(code, prompt, fileName)).Success? {
      var observe := agents(ObserveRequest(code, prompt, fileName));
      if observe.Success? {
        var observations := ParseObservations(observe.value);
        var approach := agents(ApproachRequest(code, prompt, fileName, observations));
        if approach.Success? {
          assert StageReply(agents, code, prompt, fileName, 3) == agents(PlanRequest(code, prompt, fileName, approach.value));
        }
      }
    }
  }

  /** The reply stage `k` (counted from 0) gets in a run that reached it. */
  function StageReply(agents: Agents, code: string, prompt: string, fileName: string, k: nat)
    : Result<string, Thrown>
    requires k < 4
  {
    if k == 0 then agents(AnalyzeRequest(code, prompt, fileName))
    else if k == 1 then agents(ObserveRequest(code, prompt, fileName))
    else
      var observe := agents(ObserveRequest(code, prompt, fileName));
      var observations := ParseObservations(if observe.Success? then observe.value else "");
      if k == 2 then agents(ApproachRequest(code, prompt, fileName, observations))
      else
        var reply := agents(ApproachRequest(code, prompt, fileName, observations));
        var approach := if reply.Success? then reply.value else "";
        agents(PlanRequest(code, prompt, fileName, approach))
  }

  /** The thinking is passed to no later stage: two runs whose agents agree
      on everything but the analysis request, and whose analyses both
      succeed, produce the same observations, approach and plan. */
  lemma ThinkingNotPassedOn(a: Agents, b: Agents, code: string, prompt: string, fileName: string)
    requires forall req: StageRequest :: !req.AnalyzeRequest? ==> a(req) == b(req)
    requires a(AnalyzeRequest(code, prompt, fileName)).Success? && b(AnalyzeRequest(code, prompt, fileName)).Success?
    ensures var ra := ExecuteAgenticLoop(a, code, prompt, fileName);
      var rb := ExecuteAgenticLoop(b, code, prompt, fileName);
      && (ra.Success? <==> rb.Success?)
      && (ra.Success? ==> ra.value.(thinking := "") == rb.value.(thinking := ""))
  {
    assert a(ObserveRequest(code, prompt, fileName)) == b(ObserveRequest(code, prompt, fileName));
    if a(ObserveRequest(code, prompt, fileName)).Success? {
      var obs := ParseObservations(a(ObserveRequest(code, prompt, fileName)).value);
      assert a(ApproachRequest(code, prompt, fileName, obs)) == b(ApproachRequest(code, prompt, fileName, obs));
      if a(ApproachRequest(code, prompt, fileName, obs)).Success? {
        var ap := a(ApproachRequest(code, prompt, fileName, obs)).value;
        assert a(PlanRequest(code, prompt, fileName, ap)) == b(PlanRequest(code, prompt, fileName, ap));
      }
    }
  }
}
