/** The chat view's state machine in `webview/src/App.tsx`: what each
    message from the extension and each user action does to the view's
    state, and what the view posts back. Ids, timestamps, scrolling and
    logging are left out; the React state is one immutable record that
    each event replaces. */
module Chat {

  import opened Wrappers
  import opened Strings
  import Pipeline

  /** One structured block of a streamed answer. A field that the
      extension's message did not carry is `None`. */
  datatype Block = Block(
    kind: string,
    heading: string,
    content: Option<string>,
    points: Option<seq<string>>,
    isStreaming: bool,
    streamedContent: Option<string>,
    streamedPoints: Option<seq<string>>)

  datatype Role = User | Assistant

  datatype ChatMessage = ChatMessage(
    role: Role,
    content: string,
    blocks: seq<Block>,
    isStreaming: bool,
    generatedCode: Option<string>)

  /** `planResponse` has the shape of the agents' combined response. */
  type PlanResponse = Pipeline.AgentResponse

  datatype ChatState = ChatState(
    messages: seq<ChatMessage>,
    status: string,
    streaming: Option<ChatMessage>,
    isPlanComplete: bool,
    planResponse: Option<PlanResponse>)

  /** Messages from the extension and clicks in the view. */
  datatype Event =
    | Submit(text: string)
    | StreamingStart
    | StreamingAgentResponse(agentType: string, content: Option<string>, isComplete: bool, points: Option<seq<string>>)
    | StreamingComplete
    | AssistantPlan
    | ShowGeneratedCode(newCode: Option<string>)
    | UpdateStatus(message: Option<string>)
    | OtherMessage(messageType: string)
    | ExecuteClicked
    | ApplyClicked

  /** What the view posts to the extension. */
  datatype Outbound =
    | UserChatSubmit(prompt: string)
    | ExecutePlan(planResponse: PlanResponse)
    | ApplyChanges

  datatype Outcome = Outcome(state: ChatState, posted: seq<Outbound>)

  /** JavaScript's `a || b` on possibly missing strings: the empty string
      counts as missing. */
  function OrText(a: Option<string>, b: Option<string>): (r: string)
    ensures a.Some? && a.value != "" ==> r == a.value
    ensures (a.None? || a.value == "") && b.Some? ==> r == b.value
    ensures (a.None? || a.value == "") && b.None? ==> r == ""
  {
    if a.Some? && a.value != "" then a.value else if b.Some? then b.value else ""
  }

  /** `a || b` on possibly missing arrays: every array, the empty one
      included, is kept. */
  function OrList(a: Option<seq<string>>, b: Option<seq<string>>): (r: seq<string>)
    ensures a.Some? ==> r == a.value
    ensures a.None? ==> r == b.GetOr([])
  {
    if a.Some? then a.value else b.GetOr([])
  }

  // ---------------------------------------------------------------------------
  // Blocks

  function Kinds(blocks: seq<Block>): (r: seq<string>)
    ensures |r| == |blocks|
    ensures forall i :: 0 <= i < |blocks| ==> r[i] == blocks[i].kind
  {
    seq(|blocks|, i requires 0 <= i < |blocks| => blocks[i].kind)
  }

  /** At most one block of each kind. */
  predicate OnePerKind(blocks: seq<Block>) {
    forall i, j :: 0 <= i < j < |blocks| ==> blocks[i].kind != blocks[j].kind
  }

  /** `findIndex(b => b.type === kind)`. */
  function FindKind(blocks: seq<Block>, kind: string): (r: Option<nat>)
    ensures r.None? <==> kind !in Kinds(blocks)
    ensures r.Some? ==> (r.value < |blocks| && blocks[r.value].kind == kind
                         && forall j :: 0 <= j < r.value ==> blocks[j].kind != kind)
    decreases |blocks|
  {
    if |blocks| == 0 then None
    else if blocks[0].kind == kind then Some(0)
    else
      match FindKind(blocks[1..], kind)
      case None => None
      case Some(i) => Some(i + 1)
  }

  /** The heading a new block of this kind gets. */
  function Heading(kind: string): string {
    if kind == "thinking" then "Thinking Process"
    else if kind == "observations" then "Key Observations"
    else if kind == "approach" then "Strategic Approach"
    else "Implementation Plan"
  }

  /** A `streamingAgentResponse` applied to the streamed blocks: the block
      of that kind takes the streamed content, points and completion, or a
      new block is appended when there is none. */
  function Upsert(blocks: seq<Block>, kind: string, content: Option<string>, points: Option<seq<string>>,
                  isComplete: bool): (r: seq<Block>)
    ensures Kinds(r) == if kind in Kinds(blocks) then Kinds(blocks) else Kinds(blocks) + [kind]
    ensures OnePerKind(blocks) ==> OnePerKind(r)
    ensures forall j :: 0 <= j < |blocks| && blocks[j].kind != kind ==> r[j] == blocks[j]
    ensures FindKind(r, kind).Some?
    ensures var i := FindKind(r, kind).value;
      r[i].streamedContent == content && r[i].streamedPoints == points && r[i].isStreaming == !isComplete
    ensures kind !in Kinds(blocks) ==>
      r == blocks + [Block(kind, Heading(kind), None, None, !isComplete, content, points)]
  {
    match FindKind(blocks, kind)
    case Some(i) =>
      var b := blocks[i].(streamedContent := content, streamedPoints := points, isStreaming := !isComplete);
      UpdatedBlock(blocks, i, b);
      blocks[i := b]
    case None =>
      var b := Block(kind, Heading(kind), None, None, !isComplete, content, points);
      AppendedBlock(blocks, b);
      blocks + [b]
  }

  /** Replacing the first block of a kind by one of the same kind keeps the
      kinds, and the replacement is still the first of its kind. */
  lemma UpdatedBlock(blocks: seq<Block>, i: nat, b: Block)
    requires FindKind(blocks, b.kind) == Some(i)
    ensures i < |blocks|
    ensures var r := blocks[i := b];
      Kinds(r) == Kinds(blocks) && FindKind(r, b.kind) == Some(i) && (OnePerKind(blocks) ==> OnePerKind(r))
  {
    var r := blocks[i := b];
    assert Kinds(r) == Kinds(blocks);
  }

  /** A block of a new kind appended at the end is the first of its kind. */
  lemma AppendedBlock(blocks: seq<Block>, b: Block)
    requires b.kind !in Kinds(blocks)
    ensures var r := blocks + [b];
      Kinds(r) == Kinds(blocks) + [b.kind] && FindKind(r, b.kind) == Some(|blocks|) && (OnePerKind(blocks) ==> OnePerKind(r))
  {
    var r := blocks + [b];
    assert Kinds(r) == Kinds(blocks) + [b.kind];
    assert forall j :: 0 <= j < |blocks| ==> r[j].kind == Kinds(blocks)[j];
    FirstOfKind(r, |blocks|);
  }

  /** The block as finalisation leaves it. */
  function Finalised(b: Block): (r: Block)
    ensures r.isStreaming == false && r.kind == b.kind && r.heading == b.heading
    ensures r.content == Some(OrText(b.streamedContent, b.content))
    ensures r.points == Some(OrList(b.streamedPoints, b.points))
  {
    b.(isStreaming := false, content := Some(OrText(b.streamedContent, b.content)),
       points := Some(OrList(b.streamedPoints, b.points)))
  }

  function Finalise(blocks: seq<Block>): (r: seq<Block>)
    ensures |r| == |blocks|
    ensures forall i :: 0 <= i < |blocks| ==> r[i] == Finalised(blocks[i])
    ensures Kinds(r) == Kinds(blocks)
  {
    seq(|blocks|, i requires 0 <= i < |blocks| => Finalised(blocks[i]))
  }

  const RequiredKinds: seq<string> := ["thinking", "observations", "approach", "plan"]

  /** A required block is present and filled: observations need at least
      one point, the others non-blank content. */
  predicate Filled(blocks: seq<Block>, kind: string) {
    match FindKind(blocks, kind)
    case None => false
    case Some(i) =>
      if kind == "observations" then blocks[i].points.Some? && |blocks[i].points.value| > 0
      else blocks[i].content.Some? && Trim(blocks[i].content.value) != ""
  }

  /** The kinds among `kinds` that are missing or empty, in the order of
      `kinds`. */
  function Missing(kinds: seq<string>, blocks: seq<Block>): (r: seq<string>)
    ensures |r| <= |kinds|
    ensures forall k :: k in r <==> k in kinds && !Filled(blocks, k)
    ensures |kinds| == 1 ==> r == if Filled(blocks, kinds[0]) then [] else kinds
    decreases |kinds|
  {
    if |kinds| == 0 then []
    else (if Filled(blocks, kinds[0]) then [] else [kinds[0]]) + Missing(kinds[1..], blocks)
  }

  /** The missing kinds of two kind lists are those of the first followed by
      those of the second. */
  lemma {:induction false} MissingAppend(a: seq<string>, b: seq<string>, blocks: seq<Block>)
    ensures Missing(a + b, blocks) == Missing(a, blocks) + Missing(b, blocks)
    decreases |a|
  {
    if |a| == 0 {
      assert a + b == b;
    } else {
      assert (a + b)[1..] == a[1..] + b;
      MissingAppend(a[1..], b, blocks);
    }
  }

  function IncompleteStatus(missing: seq<string>): string {
    "Plan generation incomplete - missing: " + Join(missing, ", ")
  }

  /** The text or points of the first block of a kind, or the empty value. */
  function ContentOf(blocks: seq<Block>, kind: string): string {
    match FindKind(blocks, kind)
    case None => ""
    case Some(i) => OrText(blocks[i].content, None)
  }

  function PointsOf(blocks: seq<Block>, kind: string): seq<string> {
    match FindKind(blocks, kind)
    case None => []
    case Some(i) => OrList(blocks[i].points, None)
  }

  /** `planResponse` rebuilt from the finalised blocks. */
  function Reconstruct(blocks: seq<Block>): PlanResponse {
    Pipeline.AgentResponse(ContentOf(blocks, "thinking"), PointsOf(blocks, "observations"),
                           ContentOf(blocks, "approach"), ContentOf(blocks, "plan"))
  }

  // ---------------------------------------------------------------------------
  // Events

  /** The status a streamed stage moves the view to, if any. */
  function StageStatus(agentType: string): Option<string> {
    if agentType == "thinking" then Some("Generating key observations...")
    else if agentType == "observations" then Some("Generating strategic approach...")
    else if agentType == "approach" || agentType == "plan" then Some("Generating implementation plan...")
    else None
  }

  const WaitStatus := "Please wait for plan generation to complete"

  /** `handleSendMessage`: a blank text is ignored; any other is added as
      the user's message, resets the plan and is posted. */
  function OnSubmit(s: ChatState, text: string): (o: Outcome)
    ensures Trim(text) == "" ==> o == Outcome(s, [])
    ensures Trim(text) != "" ==>
      && o.posted == [UserChatSubmit(text)]
      && !o.state.isPlanComplete && o.state.planResponse.None?
      && o.state.messages == s.messages + [ChatMessage(User, text, [], false, None)]
      && o.state.streaming == s.streaming
  {
    if Trim(text) == "" then Outcome(s, [])
    else
      var user := ChatMessage(User, text, [], false, None);
      Outcome(s.(messages := s.messages + [user], status := "Thinking...", isPlanComplete := false,
                 planResponse := None), [UserChatSubmit(text)])
  }

  /** `streamingAgentResponse`: ignored unless an answer is streaming;
      otherwise the block of that kind is updated or added and nothing else
      in the answer changes. */
  function OnAgentResponse(s: ChatState, agentType: string, content: Option<string>, isComplete: bool,
                           points: Option<seq<string>>): (o: Outcome)
    ensures s.streaming.None? ==> o == Outcome(s, [])
    ensures s.streaming.Some? ==>
      && o.posted == [] && o.state.messages == s.messages
      && o.state.planResponse == s.planResponse && o.state.isPlanComplete == s.isPlanComplete
      && o.state.streaming == Some(s.streaming.value.(blocks := Upsert(s.streaming.value.blocks, agentType,
                                                                        content, points, isComplete)))
  {
    if s.streaming.None? then Outcome(s, [])
    else
      var m := s.streaming.value;
      var blocks := Upsert(m.blocks, agentType, content, points, isComplete);
      Outcome(s.(status := StageStatus(agentType).GetOr(s.status), streaming := Some(m.(blocks := blocks))), [])
  }

  /** `streamingComplete`: ignored unless an answer is streaming. The
      answer is added exactly when every required block is filled; otherwise
      the status names the missing kinds in order, nothing is added and the
      answer stays open. */
  function OnComplete(s: ChatState): (o: Outcome)
    ensures s.streaming.None? ==> o == Outcome(s, [])
    ensures o.posted == []
    ensures s.streaming.Some? ==>
      var blocks := Finalise(s.streaming.value.blocks);
      && (o.state.isPlanComplete <==> forall k :: k in RequiredKinds ==> Filled(blocks, k))
      && (o.state.isPlanComplete ==>
            && o.state.streaming.None? && o.state.planResponse == Some(Reconstruct(blocks))
            && o.state.messages == s.messages + [s.streaming.value.(isStreaming := false, blocks := blocks)]
            && o.state.status == "Plan ready")
      && (!o.state.isPlanComplete ==>
            && o.state.messages == s.messages && o.state.streaming == s.streaming
            && o.state.planResponse == s.planResponse
            && o.state.status == IncompleteStatus(Missing(RequiredKinds, blocks)))
  {
    if s.streaming.None? then Outcome(s, [])
    else
      var m := s.streaming.value;
      var final := m.(isStreaming := false, blocks := Finalise(m.blocks));
      var missing := Missing(RequiredKinds, final.blocks);
      if missing != [] then
        assert missing[0] in missing;
        Outcome(s.(status := IncompleteStatus(missing), isPlanComplete := false), [])
      else
        Outcome(s.(planResponse := Some(Reconstruct(final.blocks)), messages := s.messages + [final],
                   streaming := None, status := "Plan ready", isPlanComplete := true), [])
  }

  /** `onExecutePlan`: refused while an answer is streaming; otherwise the
      plan is posted when there is one. */
  function OnExecute(s: ChatState): (o: Outcome)
    ensures s.streaming.Some? ==> o.posted == [] && o.state.status == WaitStatus
    ensures s.streaming.None? && s.planResponse.None? ==> o.posted == [] && o.state.status == "No plan available"
    ensures s.streaming.None? && s.planResponse.Some? ==> o.posted == [ExecutePlan(s.planResponse.value)]
    ensures o.state == s.(status := o.state.status)
  {
    if s.streaming.Some? then Outcome(s.(status := WaitStatus), [])
    else if s.planResponse.Some? then Outcome(s.(status := "Generating code..."), [ExecutePlan(s.planResponse.value)])
    else Outcome(s.(status := "No plan available"), [])
  }

  /** The view's reaction to one event. */
  function Step(s: ChatState, e: Event): Outcome {
    match e
    case Submit(text) => OnSubmit(s, text)
    case StreamingStart =>
      Outcome(s.(streaming := Some(ChatMessage(Assistant, "Generating response...", [], true, None))), [])
    case StreamingAgentResponse(agentType, content, isComplete, points) =>
      OnAgentResponse(s, agentType, content, isComplete, points)
    case StreamingComplete => OnComplete(s)
    case AssistantPlan => Outcome(s, [])
    case ShowGeneratedCode(newCode) =>
      var code := ChatMessage(Assistant, "Generated Code", [], false, Some(OrText(newCode, None)));
      Outcome(s.(status := "Code generation complete", messages := s.messages + [code]), [])
    case UpdateStatus(message) => Outcome(s.(status := OrText(message, None)), [])
    case OtherMessage(_) => Outcome(s, [])
    case ExecuteClicked => OnExecute(s)
    case ApplyClicked => Outcome(s, [ApplyChanges])
  }

  /** The view's reaction to a series of events: the final state and all
      posts in order. */
  function Run(s: ChatState, events: seq<Event>): (r: Outcome)
    decreases |events|
  {
    if |events| == 0 then Outcome(s, [])
    else
      var first := Step(s, events[0]);
      var rest := Run(first.state, events[1..]);
      Outcome(rest.state, first.posted + rest.posted)
  }

  // ---------------------------------------------------------------------------
  // Properties

  /** The streamed answer never holds two blocks of one kind. */
  predicate Valid(s: ChatState) {
    s.streaming.Some? ==> OnePerKind(s.streaming.value.blocks)
  }

  lemma StepKeepsValid(s: ChatState, e: Event)
    requires Valid(s)
    ensures Valid(Step(s, e).state)
  {
  }

  /** Every state reached from a valid one by any events is valid. */
  lemma {:induction false} RunKeepsValid(s: ChatState, events: seq<Event>)
    requires Valid(s)
    ensures Valid(Run(s, events).state)
    decreases |events|
  {
    if |events| > 0 {
      StepKeepsValid(s, events[0]);
      RunKeepsValid(Step(s, events[0]).state, events[1..]);
    }
  }

  /** After an incomplete answer the stream stays open, so the plan cannot
      be executed until the next answer starts. */
  lemma IncompleteBlocksExecute(s: ChatState)
    requires s.streaming.Some?
    requires !OnComplete(s).state.isPlanComplete
    ensures OnExecute(OnComplete(s).state).posted == []
    ensures OnExecute(OnComplete(s).state).state.status == WaitStatus
  {
  }

  // ---------------------------------------------------------------------------
  // The pipeline's notifications, as the view receives them

  function KindName(k: Pipeline.StageKind): string {
    match k
    case ThinkingStage => "thinking"
    case ObservationsStage => "observations"
    case ApproachStage => "approach"
    case PlanStage => "plan"
  }

  /** The stage order is the order of the required kinds. */
  lemma StageNamesAreRequiredKinds()
    ensures |Pipeline.StageOrder| == |RequiredKinds|
    ensures forall i :: 0 <= i < |RequiredKinds| ==> KindName(Pipeline.StageOrder[i]) == RequiredKinds[i]
  {
  }

  function AsEvent(n: Pipeline.Notification): Event {
    StreamingAgentResponse(KindName(n.kind), Some(n.content), n.isComplete, n.points)
  }

  /** The four blocks the pipeline's notifications of `resp` leave. */
  function StreamedBlocks(resp: PlanResponse): seq<Block> {
    [ Block("thinking", "Thinking Process", None, None, false, Some(resp.thinking), None),
      Block("observations", "Key Observations", None, None, false, Some(""), Some(resp.observations)),
      Block("approach", "Strategic Approach", None, None, false, Some(resp.approach), None),
      Block("plan", "Implementation Plan", None, None, false, Some(resp.detailedPlan), None) ]
  }

  /** One step of a run. */
  lemma RunCons(s: ChatState, e: Event, rest: seq<Event>)
    ensures var first := Step(s, e); var after := Run(first.state, rest);
      Run(s, [e] + rest) == Outcome(after.state, first.posted + after.posted)
  {
    assert ([e] + rest)[1..] == rest;
  }

  /** A notification of a kind not yet streamed appends its block. */
  lemma AppendsBlock(s: ChatState, m: ChatMessage, done: seq<Block>, blk: Block)
    requires s.streaming == Some(m.(blocks := done)) && blk.kind !in Kinds(done)
    requires blk == Block(blk.kind, Heading(blk.kind), None, None, false, blk.streamedContent, blk.streamedPoints)
    requires blk.streamedContent.Some?
    ensures var o := Step(s, StreamingAgentResponse(blk.kind, blk.streamedContent, true, blk.streamedPoints));
      && o.posted == [] && o.state.messages == s.messages
      && o.state.streaming == Some(m.(blocks := done + [blk]))
  {
  }

  /** A block as a `streamingAgentResponse` of its kind creates it. */
  predicate Fresh(blk: Block) {
    blk == Block(blk.kind, Heading(blk.kind), None, None, false, blk.streamedContent, blk.streamedPoints)
    && blk.streamedContent.Some?
  }

  /** The completed notifications that create these blocks. */
  function BlockEvents(blocks: seq<Block>): (r: seq<Event>)
    ensures |r| == |blocks|
    decreases |blocks|
  {
    if |blocks| == 0 then []
    else [StreamingAgentResponse(blocks[0].kind, blocks[0].streamedContent, true, blocks[0].streamedPoints)]
         + BlockEvents(blocks[1..])
  }

  /** Notifications of kinds not yet streamed append their blocks in
      arrival order. */
  lemma {:induction false} StreamAppends(s: ChatState, m: ChatMessage, done: seq<Block>, blocks: seq<Block>)
    requires s.streaming == Some(m.(blocks := done))
    requires OnePerKind(done + blocks)
    requires forall i :: 0 <= i < |blocks| ==> Fresh(blocks[i])
    ensures var o := Run(s, BlockEvents(blocks));
      && o.state.streaming == Some(m.(blocks := done + blocks))
      && o.state.messages == s.messages && o.posted == []
    decreases |blocks|
  {
    if |blocks| == 0 {
      assert done + blocks == done;
    } else {
      var b := blocks[0];
      var rest := blocks[1..];
      assert b.kind !in Kinds(done) by {
        assert forall j :: 0 <= j < |done| ==> (done + blocks)[j] == done[j];
        assert (done + blocks)[|done|] == b;
      }
      assert OnePerKind((done + [b]) + rest) by {
        assert (done + [b]) + rest == done + blocks;
      }
      var ev := StreamingAgentResponse(b.kind, b.streamedContent, true, b.streamedPoints);
      AppendsBlock(s, m, done, b);
      var next := Step(s, ev);
      StreamAppends(next.state, m, done + [b], rest);
      assert (done + [b]) + rest == done + blocks;
      RunCons(s, ev, BlockEvents(rest));
    }
  }

  /** The pipeline's notifications arrive as the events that create the
      streamed blocks. */
  lemma NotificationEvents(resp: PlanResponse)
    ensures var ns := Pipeline.Notifications(resp);
      [AsEvent(ns[0]), AsEvent(ns[1]), AsEvent(ns[2]), AsEvent(ns[3])] == BlockEvents(StreamedBlocks(resp))
  {
    var ns := Pipeline.Notifications(resp);
    var b := StreamedBlocks(resp);
    assert BlockEvents(b[3..]) == [AsEvent(ns[3])] by { assert b[3..][1..] == []; }
    assert BlockEvents(b[2..]) == [AsEvent(ns[2]), AsEvent(ns[3])] by { assert b[2..][1..] == b[3..]; }
    assert BlockEvents(b[1..]) == [AsEvent(ns[1]), AsEvent(ns[2]), AsEvent(ns[3])] by { assert b[1..][1..] == b[2..]; }
  }

  /** The streamed blocks are one per kind, each as its notification
      creates it. */
  lemma StreamedBlocksFresh(resp: PlanResponse)
    ensures OnePerKind(StreamedBlocks(resp))
    ensures forall i :: 0 <= i < 4 ==> Fresh(StreamedBlocks(resp)[i])
  {
    assert Heading("thinking") == "Thinking Process" && Heading("observations") == "Key Observations";
    assert Heading("approach") == "Strategic Approach" && Heading("plan") == "Implementation Plan";
  }

  /** Streaming the four notifications into an empty answer builds the four
      blocks in stage order. */
  lemma NotificationsBuildBlocks(s: ChatState, resp: PlanResponse)
    requires s.streaming.Some? && s.streaming.value.blocks == []
    ensures var ns := Pipeline.Notifications(resp);
      var o := Run(s, [AsEvent(ns[0]), AsEvent(ns[1]), AsEvent(ns[2]), AsEvent(ns[3])]);
      && o.state.streaming == Some(s.streaming.value.(blocks := StreamedBlocks(resp)))
      && o.state.messages == s.messages && o.posted == []
  {
    var b := StreamedBlocks(resp);
    NotificationEvents(resp);
    StreamedBlocksFresh(resp);
    assert [] + b == b;
    StreamAppends(s, s.streaming.value, [], b);
  }

  /** The four streamed blocks after finalisation. */
  lemma FinalisedStreamedBlocks(resp: PlanResponse)
    ensures var f := Finalise(StreamedBlocks(resp));
      && Kinds(f) == RequiredKinds
      && f[0].content == Some(resp.thinking) && f[1].points == Some(resp.observations)
      && f[2].content == Some(resp.approach) && f[3].content == Some(resp.detailedPlan)
  {
    var b := StreamedBlocks(resp);
    var f := Finalise(b);
    assert Kinds(f) == Kinds(b);
    assert Kinds(b) == RequiredKinds;
    assert f[0] == Finalised(b[0]);
  }

  /** What the finalised stream holds of the response. */
  lemma StreamedFacts(resp: PlanResponse)
    ensures var blocks := Finalise(StreamedBlocks(resp));
      && (Filled(blocks, "thinking") <==> Trim(resp.thinking) != "")
      && (Filled(blocks, "observations") <==> |resp.observations| > 0)
      && (Filled(blocks, "approach") <==> Trim(resp.approach) != "")
      && (Filled(blocks, "plan") <==> Trim(resp.detailedPlan) != "")
      && Reconstruct(blocks) == resp
  {
    var blocks := Finalise(StreamedBlocks(resp));
    FinalisedStreamedBlocks(resp);
    RequiredKindsFound(blocks);
  }

  /** Blocks whose kinds are the required ones, in order, are found at
      their positions. */
  lemma RequiredKindsFound(blocks: seq<Block>)
    requires Kinds(blocks) == RequiredKinds
    ensures FindKind(blocks, "thinking") == Some(0) && FindKind(blocks, "observations") == Some(1)
    ensures FindKind(blocks, "approach") == Some(2) && FindKind(blocks, "plan") == Some(3)
  {
    var k := Kinds(blocks);
    assert k[0] == "thinking" && k[1] == "observations" && k[2] == "approach" && k[3] == "plan";
    FirstOfKind(blocks, 0);
    FirstOfKind(blocks, 1);
    FirstOfKind(blocks, 2);
    FirstOfKind(blocks, 3);
  }

  /** A block with no block of its kind before it is the one found. */
  lemma FirstOfKind(blocks: seq<Block>, i: nat)
    requires i < |blocks|
    requires forall j :: 0 <= j < i ==> blocks[j].kind != blocks[i].kind
    ensures FindKind(blocks, blocks[i].kind) == Some(i)
  {
    assert Kinds(blocks)[i] == blocks[i].kind;
  }

  /** The four streamed blocks make a complete answer exactly when the
      thinking, approach and plan are not blank and there is at least one
      observation; then the rebuilt `planResponse` is the pipeline's own
      response. */
  lemma StreamedAnswerComplete(s: ChatState, resp: PlanResponse)
    requires s.streaming.Some? && s.streaming.value.blocks == StreamedBlocks(resp)
    ensures var o := OnComplete(s).state;
      && (o.isPlanComplete <==>
            Trim(resp.thinking) != "" && |resp.observations| > 0 && Trim(resp.approach) != ""
            && Trim(resp.detailedPlan) != "")
      && (o.isPlanComplete ==> o.planResponse == Some(resp))
  {
    StreamedFacts(resp);
  }

  /** A stream that the pipeline completed, whose four parts are filled,
      ends with the pipeline's response ready to execute; executing then
      posts exactly that response. */
  lemma StreamedPlanExecutes(s: ChatState, resp: PlanResponse)
    requires s.streaming.Some? && s.streaming.value.blocks == []
    requires Trim(resp.thinking) != "" && |resp.observations| > 0
    requires Trim(resp.approach) != "" && Trim(resp.detailedPlan) != ""
    ensures var ns := Pipeline.Notifications(resp);
      var streamed := Run(s, [AsEvent(ns[0]), AsEvent(ns[1]), AsEvent(ns[2]), AsEvent(ns[3])]).state;
      var done := OnComplete(streamed).state;
      && done.isPlanComplete && done.planResponse == Some(resp)
      && OnExecute(done).posted == [ExecutePlan(resp)]
  {
    NotificationsBuildBlocks(s, resp);
    var ns := Pipeline.Notifications(resp);
    var streamed := Run(s, [AsEvent(ns[0]), AsEvent(ns[1]), AsEvent(ns[2]), AsEvent(ns[3])]).state;
    StreamedAnswerComplete(streamed, resp);
  }
}
