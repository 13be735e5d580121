# CodeHelper core, modelled in Dafny

CodeHelper is a VS Code extension that asks a language model for code changes and reviews, and shows the answers in a React webview. This project models the deterministic core of that extension as pure Dafny functions, then proves what each one promises. The model calls are oracles: functions from a request to a reply or to a thrown value. The workspace is a value the tools read from.

The modules follow the program's files:

- `Wrappers`: `Option` and `Result`.
- `Strings`: JavaScript's `trim`, `split`, `join`, `includes`, `indexOf` and ASCII `toLowerCase`, each defined once on `seq<char>`.
- `Parsing` (`src/utils/parsingFunctions.ts`): `extractSection`, `cleanCodeBlock` and `parseAIResponse`, with each regular expression written out as a scanner. `src/extension.ts` has textually identical copies of the three functions, modelled once.
- `Suggestions` (`src/extension.ts`): `parseSuggestions`, JavaScript's `parseInt`, the line clamp and comment block of `applySuggestionsAsComments`, and the message trace of `executeCodeGeneration`.
- `Review` (`src/utils/CodeReviewAgents.ts`): the input guard, code truncation, the retrying Gemini call, HTTP error mapping, the line-by-line review parser with its fallbacks, and `performCodeReview` over the four aspects.
- `ReviewPanel` (`webview/src/components/CodeReview.tsx`): section toggling, the per-aspect lookup and the API-error classification.
- `Analysis` (`src/utils/agents/AnalysisAgent.ts`): search-term and variable-pattern extraction, context-gap analysis, context gathering and merging, the thinking loop and the final summary.
- `Pipeline` (`src/utils/AgentSystem.ts` and the agents in `src/utils/agents/`): the four-stage orchestrator, both direct and streaming, plus the numbered-observation parser, prompt assembly and stage fallbacks.
- `Chat` (`webview/src/App.tsx`): the view's reducer over incoming messages and clicks.
- `ToolSearch`, `FileAnalysis`, `ProjectTree`, `Json` and `Tools` (`src/utils/Tools.ts`): the five agent tools, `JSON.stringify(_, null, 2)` for the values they print, and the tool table.

Some behaviours are modelled as the code has them, not as its prompts suggest:

- No clean review template reports a clean result. The bug reviewer's template lists `No bugs detected`, which the parser does not drop, so it stays as an issue. The other three templates' issue lines are dropped. But `No recommendations needed` and `No action required`, which every template lists, are never dropped, so each of those reviews comes back with `hasIssues` true and no issue (`Review.CleanTemplateReportsIssues`, `Review.CleanTailReportsIssues`).
- Only the first line of a suggestion's explanation is prefixed with `// Explanation: `. A multi-line explanation, which the section extractor accepts, puts its later lines into the document uncommented (`Suggestions.LaterExplanationLinesUncommented`, `Suggestions.TwoLineExplanationLeaks`).
- The context-gap heuristic starts at 0.5, below the 0.8 threshold. So every iteration asks for more context, and the thinking loop always runs five times (`Analysis.AlwaysNeedsMore`, `Analysis.ThinkingLoop`).

## Model

| member | source | states |
|---|---|---|
| Strings.SplitAppend | src/extension.ts:697 | splitting two texts joined by the separator gives the pieces of the first followed by those of the second |
| Strings.CommaItemsJoin | src/utils/Tools.ts:149 | a non-empty list of comma-free items printed with `join(', ')` reads back as the same items |
| Parsing.WordRunEnd | src/utils/parsingFunctions.ts:16 | the end of the maximal `\w` run starting at a position |
| Parsing.FirstStop | src/utils/parsingFunctions.ts:16 | the lazy capture stops at the first position where the lookahead `(?=\w+:\|$)` holds, and at no earlier one |
| Parsing.StopsAtMeaning | src/utils/parsingFunctions.ts:16 | the lookahead holds exactly at the end of the text or before a word run that is followed by a colon |
| Parsing.ExtractSection | src/utils/parsingFunctions.ts:15-19 | an absent label yields the empty string; the result is always trimmed |
| Parsing.Capture | src/utils/parsingFunctions.ts:16-17 | the match exists exactly when `name:` occurs; its capture lies inside the text |
| Parsing.SectionSpan | src/utils/parsingFunctions.ts:16-18 | when the label occurs, the section is the trimmed text between its first occurrence and the first stop, with no stop inside; the span's bounds are those of the first label |
| Parsing.SectionHasNoLabel | src/utils/parsingFunctions.ts:16-18 | an extracted section never contains a word character followed by a colon, so it never runs into the next label |
| Parsing.CleanCodeBlock | src/utils/parsingFunctions.ts:22-24 | text without a fence is only trimmed; the result is always trimmed |
| Parsing.CleanFencedBlock | src/utils/parsingFunctions.ts:22-24 | a fenced block with a language tag gives back exactly its trimmed body |
| Parsing.FenceFreeIsUntouched | src/utils/parsingFunctions.ts:23 | neither replacement changes text that contains no fence |
| Parsing.FirstPair | src/utils/parsingFunctions.ts:28-30 | a start/end marker pair is found exactly when one exists, and it is the earliest start with the nearest end after it |
| Parsing.MarkerBody | src/utils/parsingFunctions.ts:28-30 | the capture between the markers, present exactly when a pair exists |
| Parsing.MarkerBodyRoundTrip | src/utils/parsingFunctions.ts:28-30 | wrapping a body that does not contain the end marker and parsing it back yields the body |
| Parsing.StripNumberPrefix | src/utils/parsingFunctions.ts:38 | a line not starting with a digit is unchanged; otherwise the result is a suffix of the line |
| Parsing.NumberedLineRoundTrip | src/utils/parsingFunctions.ts:38 | stripping the prefix from `n. text` gives back `text` |
| Parsing.NonBlankLines | src/utils/parsingFunctions.ts:34 | keeps only lines that are not blank after trimming, each drawn from the input |
| Parsing.NonBlankLinesAppend | src/utils/parsingFunctions.ts:34 | the blank-line filter distributes over concatenation |
| Parsing.PlanRoundTrip | src/utils/parsingFunctions.ts:32-41 | rendering one-line descriptions as a numbered list and parsing it back gives the same descriptions as pending steps numbered from 1 |
| Parsing.ParseAIResponse | src/utils/parsingFunctions.ts:27-48 | each field is empty or defaulted exactly when its marker pair is missing or its body is blank; otherwise it is the trimmed body; plan steps are numbered from 1 and pending |
| Suggestions.ParseInt | src/extension.ts:661 | blank input is NaN |
| Suggestions.ParseIntRoundTrip | src/extension.ts:661 | `parseInt` of optional whitespace, an optional minus sign, a decimal numeral and a non-alphanumeric tail is that integer |
| Suggestions.ParseUnsignedDecimal | src/extension.ts:661 | a decimal digit run ended by a non-alphanumeric character parses to its value, negated after a minus sign |
| Suggestions.SuggestionBodies | src/extension.ts:653-656 | empty exactly when no `SUGGESTION_START`/`SUGGESTION_END` pair exists; the first body is the first pair's capture |
| Suggestions.SuggestionBodiesRoundTrip | src/extension.ts:653-656 | rendering bodies as consecutive marker blocks and scanning them back gives the same bodies in order |
| Suggestions.ParseSuggestion | src/extension.ts:658-663 | a missing label gives an empty field or NaN; the text fields are trimmed |
| Suggestions.ParseSuggestions | src/extension.ts:651-668 | one suggestion per marker block, in order, none when there is no block |
| Suggestions.ClampLine | src/extension.ts:687-689 | a missing, NaN or sub-1 line number becomes 1; a number of at least 1 is kept |
| Suggestions.InsertionLine | src/extension.ts:691 | the editor position is the clamped line minus one |
| Suggestions.CommentRoundTrip | src/extension.ts:696-698 | prefixing each line with `// ` and stripping the prefixes gives back the code |
| Suggestions.CommentBlockLayout | src/extension.ts:693-703 | for any suggestion, the inserted lines are the header, the old-code label, the old code lines each prefixed with `// `, the new-code label, the new code lines likewise, the explanation lines of which only the first carries `// Explanation: `, the footer and two empty lines |
| Suggestions.CommentBlockRecoversCode | src/extension.ts:693-703 | for any suggestion, stripping the `// ` prefix from the old-code and new-code lines of the inserted block and joining them gives back the old and new code |
| Suggestions.LaterExplanationLinesUncommented | src/extension.ts:699 | every explanation line after the first is inserted as it is, without a comment prefix |
| Suggestions.TwoLineExplanationLeaks | src/extension.ts:699 | an explanation of two lines puts its second line into the document as plain text, right after the labelled first line |
| Suggestions.ExecuteCodeGeneration | src/extension.ts:295-318 | each step is reported executing and then completed, in plan order, followed by one completion message |
| Review.CheckInput | src/utils/CodeReviewAgents.ts:20-26 | the review proceeds exactly when both code and key are non-blank; blank code is reported before a blank key |
| Review.Truncate | src/utils/CodeReviewAgents.ts:29-33 | code of at most 10000 characters is unchanged; longer code keeps its first 10000 characters followed by the truncation note |
| Review.TruncateIdempotent | src/utils/CodeReviewAgents.ts:29-33 | truncating truncated code changes nothing |
| Review.CallGemini | src/utils/CodeReviewAgents.ts:258-320 | at most two retries, with delays of 1000 and 2000 ms, each after a 429 or 5xx failure; the call settles on the first other outcome or on the third attempt |
| Review.OtherFailuresPassThrough | src/utils/CodeReviewAgents.ts:317 | a failure that is not an HTTP error is rethrown at once, with no retry |
| Review.PersistentServerError | src/utils/CodeReviewAgents.ts:296-313 | a server that always answers 503 costs two retries and ends in the server-error message |
| Review.ParseReview | src/utils/CodeReviewAgents.ts:326-385 | `hasIssues` holds exactly when some section collected an item; the items are trimmed and not among the dropped phrases; otherwise the two fallbacks depend on whether the reply is blank |
| Review.ParseLinesExtends | src/utils/CodeReviewAgents.ts:332-358 | parsing more lines only appends to each list |
| Review.ParseLinesAppend | src/utils/CodeReviewAgents.ts:332 | parsing a concatenation is parsing the first part and then the second |
| Review.NoHeaderNoEffect | src/utils/CodeReviewAgents.ts:343 | dash lines before any section header are ignored |
| Review.ReviewRoundTrip | src/utils/CodeReviewAgents.ts:326-358 | a reply rendered from three item lists under the three headers parses back to the same lists |
| Review.ReviewParsesBack | src/utils/CodeReviewAgents.ts:326-385 | the rendered reply of non-empty lists parses to a result with issues and exactly those lists |
| Review.CleanTemplateReportsIssues | src/utils/CodeReviewAgents.ts:332-358 | each aspect's clean template parses with `hasIssues` true: the bug template keeps `No bugs detected` as its one issue, the other three have no issue, and every template keeps `No recommendations needed` and `No action required` |
| Review.CleanTailReportsIssues | src/utils/CodeReviewAgents.ts:345-346 | a reply holding only the recommendation `No recommendations needed` and the step `No action required` reports issues, because neither phrase is dropped |
| Review.DroppedIssueReportsRest | src/utils/CodeReviewAgents.ts:332-358 | a dropped issue phrase followed by carried recommendations or steps gives `hasIssues` true with no issues and exactly those lists |
| Review.DashLineDropsItem | src/utils/CodeReviewAgents.ts:343-346 | a dash line whose item is a dropped phrase leaves the parser state unchanged |
| Review.FailureResult | src/utils/CodeReviewAgents.ts:107-114 | a failed aspect reports issues, and its single issue is `API call failed: ` followed by the message; the one recommendation is to check the key and network, and the three next steps are fixed |
| Review.ReviewAspect | src/utils/CodeReviewAgents.ts:107-114 | a reply is parsed for its aspect; a thrown value becomes the failure result |
| Review.PerformCodeReview | src/utils/CodeReviewAgents.ts:8-66 | bad input fails with the guard's message; otherwise four results in the order bug, performance, security, clarity, each reviewing the truncated code |
| Review.AspectIsolation | src/utils/CodeReviewAgents.ts:35-58 | an aspect's result depends only on the replies to that aspect's calls |
| ReviewPanel.Toggle | webview/src/components/CodeReview.tsx:48-56 | flips the membership of one section and leaves all others unchanged |
| ReviewPanel.ResultFor | webview/src/components/CodeReview.tsx:58-60 | the first result of the aspect, absent exactly when none has it |
| ReviewPanel.CardsShowTheirAspect | webview/src/components/CodeReview.tsx:58-60 | after a successful review, each aspect's card shows the result at that aspect's position |
| ReviewPanel.Classify | webview/src/components/CodeReview.tsx:95-105 | the first matching phrase wins, in the order invalid key, rate limit, server error, timeout |
| ReviewPanel.ApiErrorType | webview/src/components/CodeReview.tsx:65-108 | absent exactly when no issue looks like an API error; otherwise the class of the first such issue of the first such result |
| ReviewPanel.FailureIsApiError | webview/src/components/CodeReview.tsx:65-73 | every failure result the reviewer builds counts as an API error |
| ReviewPanel.HttpFailureClassified | src/utils/CodeReviewAgents.ts:308-313 | the messages for HTTP 401, 429 and 5xx are shown as invalid key, rate limit and server error |
| ReviewPanel.FirstFailureDecides | webview/src/components/CodeReview.tsx:75-105 | when the bug review failed with 401, the panel reports an invalid key whatever follows |
| Analysis.SplitSpaces | src/utils/agents/AnalysisAgent.ts:117 | splitting on whitespace runs yields pieces without whitespace |
| Analysis.SplitSpacesJoin | src/utils/agents/AnalysisAgent.ts:117 | splitting words joined by single spaces gives back the words |
| Analysis.SearchTerms | src/utils/agents/AnalysisAgent.ts:120-121 | keeps only words longer than three characters that are not stop words |
| Analysis.SearchTermsInPlace | src/utils/agents/AnalysisAgent.ts:120-121 | the filter keeps every qualifying word at its place: the kept words before it, then the word exactly when it qualifies, then the kept words after it |
| Analysis.SearchTermsDropStopWords | src/utils/agents/AnalysisAgent.ts:118-121 | a stop word or a short word is never a search term |
| Analysis.ExtractSearchTerms | src/utils/agents/AnalysisAgent.ts:115-123 | the first five (or all, when fewer) qualifying words of the lower-cased, whitespace-split prompt, in prompt order; each lower case and without whitespace |
| Analysis.SearchTermInPlace | src/utils/agents/AnalysisAgent.ts:115-123 | a qualifying word with fewer than five qualifying words before it is extracted, right after those words |
| Analysis.SearchTermsRoundTrip | src/utils/agents/AnalysisAgent.ts:115-123 | up to five lower-case search terms joined by spaces are extracted back unchanged |
| Analysis.IdentifiersSound | src/utils/agents/AnalysisAgent.ts:127 | every match is a letter followed by letters and digits |
| Analysis.IdentifiersConcat | src/utils/agents/AnalysisAgent.ts:127 | the matches of two texts that meet at a word boundary are the matches of the first followed by those of the second |
| Analysis.WordRunInPlace | src/utils/agents/AnalysisAgent.ts:127 | a run of word characters between word boundaries is matched at its place exactly when it is an identifier, so no match is lost and the order is the text order |
| Analysis.IdentifierPosition | src/utils/agents/AnalysisAgent.ts:127 | every match sits at word boundaries in the prompt |
| Analysis.UnderscoreRunRejected | src/utils/agents/AnalysisAgent.ts:127 | a word joined by an underscore contains no match, because `\b` does not split it |
| Analysis.ExtractVariablePatterns | src/utils/agents/AnalysisAgent.ts:125-131 | the first three (or all, when fewer) matches longer than three characters, in prompt order |
| Analysis.LongerThanThreeInPlace | src/utils/agents/AnalysisAgent.ts:129 | the length filter keeps every long identifier at its place and drops every short one |
| Analysis.VariablePatternInPlace | src/utils/agents/AnalysisAgent.ts:125-131 | a long identifier between word boundaries with fewer than three long identifiers before it is extracted, right after them |
| Analysis.VariablePatternsRoundTrip | src/utils/agents/AnalysisAgent.ts:125-131 | up to three long identifiers joined by spaces are extracted back unchanged |
| Analysis.AnalyzeContextGaps | src/utils/agents/AnalysisAgent.ts:239-276 | the gaps are exactly what the context lacks, in the fixed order; confidence is 0.5 minus their weights, floored at 0; more context is always needed |
| Analysis.SearchRelevantCode | src/utils/agents/AnalysisAgent.ts:58-77 | the successful codebase-search replies for the extracted terms, in term order; one per term when no search throws |
| Analysis.SuccessesInPlace | src/utils/agents/AnalysisAgent.ts:64-71 | each request keeps its place among the collected replies: its reply when the call succeeds, nothing when it throws |
| Analysis.SearchExistingVariables | src/utils/agents/AnalysisAgent.ts:79-101 | the successful project-wide variable-search replies for the extracted identifiers, in order; one per identifier when no search throws |
| Analysis.GatherAdditionalContext | src/utils/agents/AnalysisAgent.ts:278-302 | dependencies are filled exactly when that gap is listed, with the fixed note; relevant files exactly when theirs is, with the hits of the broad `code implementation` search; the structure exactly when its gap is listed and the deep listing succeeds, with that listing; variables never |
| Analysis.GatherFromStructure | src/utils/agents/AnalysisAgent.ts:281-298 | across any list of gaps, the structure becomes the deep listing when its gap occurs and the call succeeds, and is untouched otherwise |
| Analysis.MergeContext | src/utils/agents/AnalysisAgent.ts:304-315 | the lists grow by exactly the added items at the end; a non-empty added structure or dependency text replaces the old one, and a text field changes only to such an addition |
| Analysis.DependencyGapPersists | src/utils/agents/AnalysisAgent.ts:278-315 | the fixed dependency note is too short to close the dependency gap |
| Analysis.InitialContext | src/utils/agents/AnalysisAgent.ts:17-28 | the structure and dependencies are each the tool's answer when it succeeds and its failure text when it throws; the relevant files and variables are those of the prompt's searches; one entry per term and pattern when nothing throws |
| Analysis.ThinkingLoop | src/utils/agents/AnalysisAgent.ts:133-183 | runs all five iterations and returns the transcript and the context after them |
| Analysis.HeadersInOrder | src/utils/agents/AnalysisAgent.ts:160 | the transcript holds each iteration's header, in iteration order |
| Analysis.FinalSummary | src/utils/agents/AnalysisAgent.ts:317-342 | the summary is the title, the context section, the transcript and the final assessment, in that order |
| Analysis.SummaryReportsCounts | src/utils/agents/AnalysisAgent.ts:325-326 | the summary holds the relevant-file line and the variable-pattern line, and each count reads back as the size of its list |
| Analysis.SummaryQuotesTranscript | src/utils/agents/AnalysisAgent.ts:317-342 | the summary contains the whole thinking transcript |
| Analysis.AnalyzeCodeWithContext | src/utils/agents/AnalysisAgent.ts:9-46 | the summary of the five-iteration loop started from the initially gathered context |
| Pipeline.KeepMapSources | src/utils/AgentSystem.ts:98 | every parsed observation comes from a kept line, in order, and every kept line contributes one |
| Pipeline.ObservationSources | src/utils/agents/ObservationAgent.ts:52 | every observation is a numbered line with its number stripped, in line order |
| Pipeline.NoNumberedLines | src/utils/agents/ObservationAgent.ts:52 | a reply without a numbered line yields no observation |
| Pipeline.IndentedLineKeepsNumber | src/utils/agents/ObservationAgent.ts:52 | an indented numbered line is kept with its number, because the prefix strip runs on the untrimmed line |
| Pipeline.ObservationsRoundTrip | src/utils/AgentSystem.ts:120 | observations numbered `1.`, `2.` and so on, one per line, parse back to the same list |
| Pipeline.InputsInOrder | src/utils/agents/ObservationAgent.ts:20-37 | a template embeds each input verbatim, each one before the next |
| Pipeline.ObservationPromptEmbeds | src/utils/agents/ObservationAgent.ts:22-28 | the observation prompt holds the file name, request, code and thinking, in that order |
| Pipeline.ApproachPromptEmbeds | src/utils/agents/ApproachAgent.ts:22-31 | the approach prompt holds the file name, request, code, thinking and numbered observations, in that order |
| Pipeline.GenerateObservations | src/utils/agents/ObservationAgent.ts:52-56 | a reply is parsed into observations; a failure becomes the one-item fallback |
| Pipeline.DefineApproach | src/utils/agents/ApproachAgent.ts:54-58 | a reply is the approach; a failure becomes the fallback text |
| Pipeline.ExecuteAgenticLoop | src/utils/AgentSystem.ts:214-238 | success means each stage succeeded on the request built from the previous stage's result; a failed analysis is the loop's failure |
| Pipeline.ExecuteStreamingAgenticLoop | src/utils/AgentSystem.ts:240-296 | at most four complete notifications, in stage order; only observations carry points and empty content; an error exactly when fewer than four were sent |
| Pipeline.StreamingMatchesDirect | src/utils/AgentSystem.ts:214-296 | the streaming loop notifies exactly the direct loop's result, and rethrows exactly its failure |
| Pipeline.FailedStageIsNext | src/utils/AgentSystem.ts:292-295 | the streaming loop's error is the reply of the first stage it did not notify |
| Pipeline.ThinkingNotPassedOn | src/utils/AgentSystem.ts:221-230 | the thinking stage's text does not reach any later stage |
| Chat.OnSubmit | webview/src/App.tsx:40-56 | a blank message does nothing; otherwise the message is appended, posted, and the previous plan is cleared |
| Chat.Upsert | webview/src/App.tsx:96-127 | updates the block of that kind in place, or appends a new one; no other block changes, and the blocks stay one per kind |
| Chat.OnAgentResponse | webview/src/App.tsx:78-134 | applies the update to the streaming message only while one exists |
| Chat.Finalise | webview/src/App.tsx:146-151 | each block stops streaming and keeps its streamed content, falling back to the earlier content |
| Chat.Missing | webview/src/App.tsx:157-180 | exactly the required kinds whose block is absent or empty; a single kind is listed exactly when it is not filled |
| Chat.MissingAppend | webview/src/App.tsx:157-180 | the missing kinds keep the order of the required kinds: those of a prefix come first |
| Chat.OnComplete | webview/src/App.tsx:136-197 | the plan is complete exactly when all four required blocks are filled; then the plan is rebuilt and the message kept; otherwise the missing kinds are reported |
| Chat.OnExecute | webview/src/App.tsx:242-260 | executes only when no answer is streaming and a plan exists; only the status changes |
| Chat.RunKeepsValid | webview/src/App.tsx:40-263 | no sequence of events puts two blocks of one kind in the streaming message |
| Chat.IncompleteBlocksExecute | webview/src/App.tsx:157-180 | after an incomplete answer, Execute posts nothing and asks the user to wait |
| Chat.StreamedAnswerComplete | webview/src/App.tsx:136-197 | the streamed answer completes exactly when thinking, observations, approach and plan are non-empty, and then the plan is the agents' response |
| Chat.StreamedPlanExecutes | webview/src/App.tsx:65-260 | a full agent response streamed to an empty message completes the plan, and Execute sends that response back |
| ToolSearch.Take | src/utils/Tools.ts:59 | the first n items, or all when there are fewer |
| ToolSearch.FileSearchHits | src/utils/Tools.ts:60-80 | a file is reported exactly when it reads and contains the query ignoring case; a context line is added when some single line matches |
| ToolSearch.SearchWindow | src/utils/Tools.ts:71-77 | the context is the first matching line with up to two lines before and two after |
| ToolSearch.FileReported | src/utils/Tools.ts:59-67 | every readable file among the first fifty that contains the query is reported |
| ToolSearch.FileHitSource | src/utils/Tools.ts:59-67 | every reported file is readable and contains the query |
| ToolSearch.PastFiftyUnread | src/utils/Tools.ts:59 | files past the fiftieth do not affect the hits |
| ToolSearch.SearchReport | src/utils/Tools.ts:88-92 | no hits give the not-found message; otherwise the report starts with its header |
| ToolSearch.SearchReportLines | src/utils/Tools.ts:92 | the report lists at most twenty hits, one per line, in order |
| ToolSearch.ReadFilesOutcome | src/utils/Tools.ts:56-59 | reading the files of all extensions succeeds exactly when every extension's file search succeeds; otherwise it fails with the first failing search's error |
| ToolSearch.ReadFilesAppend | src/utils/Tools.ts:56-59 | the files read for two extension lists are those of the first followed by those of the second |
| ToolSearch.ReadFileAt | src/utils/Tools.ts:56-59 | each of the first fifty files of each extension is read |
| ToolSearch.ReadFileSource | src/utils/Tools.ts:56-59 | every file read is one of the first fifty files of some extension |
| ToolSearch.ExtensionHitsOfReadFiles | src/utils/Tools.ts:56-86 | the per-extension hits are the hits over all files read, in extension order, or the first search failure |
| ToolSearch.CodebaseSearch | src/utils/Tools.ts:45-96 | a closed workspace gets the workspace message; a failed file search gets the error message; otherwise the report of the hits over all files read for the seven extensions |
| ToolSearch.CodebaseSearchFails | src/utils/Tools.ts:93-95 | the first extension whose file search fails decides the error message |
| ToolSearch.CodebaseSearchFindsFile | src/utils/Tools.ts:56-92 | a readable matching file among the first fifty of its extension is reported when fewer than twenty hits come before it |
| ToolSearch.CodebaseSearchHitSource | src/utils/Tools.ts:56-92 | every reported file is one of the first fifty of some extension, readable, and contains the query |
| ToolSearch.ReportShowsKeptHit | src/utils/Tools.ts:92 | each of the first twenty hits appears in the report |
| ToolSearch.ScopePattern | src/utils/Tools.ts:235-238 | `src/**/*` exactly for the specific-directory scope, `**/*` otherwise |
| ToolSearch.MentionedIffWholeWord | src/utils/Tools.ts:248-262 | for a word-character name, the four patterns together match exactly when the name occurs as a whole word |
| ToolSearch.VariableEntry | src/utils/Tools.ts:256-276 | a hit names a mentioning file and its first line containing the name, with one line of context on each side; a mentioning file is skipped only when no single line contains the name |
| ToolSearch.VariableHitSource | src/utils/Tools.ts:242-276 | every hit comes from one scanned file |
| ToolSearch.VariableFileReported | src/utils/Tools.ts:242-276 | every scanned file with an entry is reported |
| ToolSearch.VariableSearch | src/utils/Tools.ts:226-290 | a closed workspace gets the workspace message; a failed file search gets the error message; no hits give the not-found message; otherwise the report starts with its header |
| ToolSearch.VariableReportEnds | src/utils/Tools.ts:286 | the report starts with the first hit and ends with the last of at most fifteen |
| ToolSearch.VariableReportShowsHit | src/utils/Tools.ts:286 | each of the first fifteen hits appears in the report in full |
| ToolSearch.EntryRendersLines | src/utils/Tools.ts:271 | a hit prints as its `Found in <path>:<line>` line followed by each context line indented by two spaces, one per line |
| ToolSearch.ReportJoinLines | src/utils/Tools.ts:286 | hits joined by a blank line print as their lines with one empty line between consecutive hits |
| ToolSearch.VariableReportLines | src/utils/Tools.ts:264-286 | when no file path holds a line break, the report after its header splits, line by line, into the first fifteen hits in order: each hit's location line, its context lines indented by two spaces, and one blank line between hits |
| FileAnalysis.FileStructure | src/utils/Tools.ts:125-131 | counts each kind of line; no count exceeds the total; a single line counts once under each kind it belongs to and not otherwise |
| FileAnalysis.StructureCountsShareLines | src/utils/Tools.ts:127-129 | empty, comment and import lines are disjoint kinds |
| FileAnalysis.StructureAdds | src/utils/Tools.ts:125-131 | the counts of concatenated files are the sums of their counts |
| FileAnalysis.Declarations | src/utils/Tools.ts:143-148 | every declared name is a non-empty word |
| FileAnalysis.DeclarationsRoundTrip | src/utils/Tools.ts:143-148 | a file of `const name = 0;` lines lists exactly those names, in order |
| FileAnalysis.ImportOf | src/utils/Tools.ts:324 | only lines starting with `import` give a module, and it is non-empty |
| FileAnalysis.ImportFromRead | src/utils/Tools.ts:324 | `import x from 'path'` gives `path` |
| FileAnalysis.ImportBareRead | src/utils/Tools.ts:324 | `import 'path'` gives `path` |
| FileAnalysis.ExportOf | src/utils/Tools.ts:330 | only lines starting with `export` give a name, and it is a non-empty word |
| FileAnalysis.ExportRead | src/utils/Tools.ts:330 | `export kind name` gives `name` |
| FileAnalysis.Dedup | src/utils/Tools.ts:352-353 | the same elements without repetition |
| FileAnalysis.DedupKeepsFirstOrder | src/utils/Tools.ts:352-353 | elements keep the order of their first occurrences |
| FileAnalysis.DedupIdempotent | src/utils/Tools.ts:352-353 | removing duplicates twice changes nothing |
| FileAnalysis.FileDependencies | src/utils/Tools.ts:320-354 | the modules and exports found in the lines, each once |
| FileAnalysis.ImportsFromImportLines | src/utils/Tools.ts:320-328 | every reported module comes from some trimmed import line |
| ProjectTree.MaxDepthFor | src/utils/Tools.ts:209 | shallow is 2, medium is 3, anything else is 4 |
| ProjectTree.ExtName | src/utils/Tools.ts:196 | empty or a dotted suffix of the name with no further dot |
| ProjectTree.ExtNameIffDot | src/utils/Tools.ts:196 | a name has an extension exactly when it contains a dot |
| ProjectTree.ExtNameLastDot | src/utils/Tools.ts:196 | the extension of a name is its last dot and everything after it |
| ProjectTree.ScanItems | src/utils/Tools.ts:183-201 | a listing fails exactly when one of its items fails; the keys are the listed items, in order |
| ProjectTree.ItemFields | src/utils/Tools.ts:184-200 | an item contributes its own key exactly when it is listed |
| ProjectTree.ScanPrunes | src/utils/Tools.ts:184 | no key in the tree is hidden or `node_modules` |
| ProjectTree.ScanDepthBound | src/utils/Tools.ts:177-193 | the tree is no deeper than the depth bound allows |
| ProjectTree.SummaryCountsEverything | src/utils/Tools.ts:192 | a directory at the depth bound is summarised by its full entry count, hidden entries included |
| ProjectTree.FileListedIff | src/utils/Tools.ts:195-198 | a file is listed exactly when its extension is one of the six |
| Json.UnescapeEscape | src/utils/Tools.ts:212 | an escaped string unescapes to the original |
| Json.EscapeIsClean | src/utils/Tools.ts:212 | an escaped string contains no control character |
| Json.QuoteIsOneLine | src/utils/Tools.ts:212 | a quoted string never breaks a line |
| Json.Indent | src/utils/Tools.ts:212 | two spaces per level |
| Json.FlatObjectLines | src/utils/Tools.ts:343-359 | an object of string fields prints as one line per field plus the braces |
| Json.JoinBracketed | src/utils/Tools.ts:212 | a bracketed value is its opener, the comma-ended items and its closer, one per line |
| Tools.PositionsHitIntendedTools | src/utils/agents/AnalysisAgent.ts:51-105 | each position the analysis agent uses names the tool it means |
| Tools.Filter | src/utils/Tools.ts:139 | keeps exactly as many lines as the predicate counts, each from the input; a single line is kept exactly when it satisfies the predicate |
| Tools.FilterAppend | src/utils/Tools.ts:139 | filtering keeps the input's order: the kept lines of a prefix come first |
| Tools.FileReport | src/utils/Tools.ts:123-153 | each analysis type gives its own report, and any other type gives the unknown-type message |
| Tools.StructureReport | src/utils/Tools.ts:124-132 | the structure report shows each of the five line counts of the file |
| Tools.PreviewReport | src/utils/Tools.ts:134-136 | the body of the content report splits back into the file's first twenty lines |
| Tools.ImportsReport | src/utils/Tools.ts:138-140 | the body of the dependencies report splits back into exactly the import and export lines |
| Tools.VariablesReport | src/utils/Tools.ts:142-149 | the variables report is its header alone when nothing is declared; otherwise the text after the header, split at commas with the space after each comma dropped, gives back the declared names in order |
| Tools.FileContentAnalysis | src/utils/Tools.ts:104-157 | the workspace, missing-file and read-error messages; a readable file gets the report for the analysis type |
| Tools.PreviewIsFirstLines | src/utils/Tools.ts:135-136 | the preview is the file's first twenty lines |
| Tools.ProjectStructure | src/utils/Tools.ts:166-215 | a closed workspace gets the workspace message; otherwise the report starts with the depth header, and an unreadable root or entry makes the rest the quoted error text |
| Tools.ProjectStructureListsRoot | src/utils/Tools.ts:183-211 | when the root and its entries can be read, every entry the scan lists is printed as a key of the report |
| Tools.ProjectDependencies | src/utils/Tools.ts:337-350 | the object is empty exactly when there is no readable package file; otherwise its dependencies are the package's or `{}`, and its dev dependencies are the package's or `{}` when requested and `{}` when not |
| Tools.BrokenPackageIgnored | src/utils/Tools.ts:347-349 | an unparsable package file counts as no package file |
| Tools.DependencyAnalysis | src/utils/Tools.ts:298-362 | the workspace, missing-file and read-error messages |
| Tools.DependencyReportShows | src/utils/Tools.ts:320-359 | a successful report starts with its header and prints the file name, every imported module, every exported name, and the `projectDependencies` member holding the dependency object that Tools.ProjectDependencies computes from the package file |
| Tools.RunTool | src/utils/Tools.ts:46-48 | every tool refuses to run without a workspace |
| Tools.WorkspaceInvoke | src/utils/agents/AnalysisAgent.ts:51-105 | a search request is answered by the codebase search, a variable request by the variable search, a structure request by the structure tool and a dependency request by the dependency tool, each with the request's parameters |
| Tools.GatheringWithTools | src/utils/agents/AnalysisAgent.ts:17-28 | with the real tools, the initial context holds the structure and dependency reports, the codebase-search report of each term and the variable-search report of each identifier, in order |

## Left out

- The HTTP transport: axios, request bodies, response-shape checks and timeouts. Each model call is an oracle parameter that returns reply text, an HTTP status or another thrown value.
- Timers and delays: the retry back-off is recorded as a list of delays and never waited for. The 1000–3000 ms step animation and the one-second pause between thinking iterations are not modelled.
- Logging (`console.*`): it has no effect on results.
- VS Code APIs: editors, webview panels, `fs.existsSync` and `statSync`. The workspace is a value: a listing per directory, the file contents (absent, readable or failing), and `findFiles` as a function from a glob to a file list or a thrown value. Path resolution and `path.relative` are taken as given.
- Strings are Dafny `char` sequences. JavaScript lengths count UTF-16 units. `toLowerCase` is modelled for ASCII letters only.
- Suggestions.ParseInt: `parseInt` returns `-0` for `-0`; the model gives `0`. Numerals above 2^53 are kept exact instead of rounding to the nearest double.
- ToolSearch.VariableReportLines: a file path containing a line break is outside the line-by-line statement, because its location line would split in two; VariableReportShowsHit still covers such paths.
- ToolSearch.MentionedIffWholeWord: a variable name containing regular-expression metacharacters is outside the model. The proof covers names of word characters only.
- Analysis.AnalyzeContextGaps: confidence is computed in tenths (5 for 0.5), not as a floating-point number.
- Json: `JSON.stringify` puts integer-like keys first. The model keeps insertion order; the tools' keys are file names and fixed words.
- Tools.ProjectDependencies: parsing `package.json` is an oracle that yields the two dependency objects or an error. JSON parsing itself is not modelled.
- The outer `catch` blocks of `performCodeReview` and `analyzeCodeWithContext`: they only catch failures of the calls above, which are modelled as values. The tools' outer `catch` blocks are modelled: a failed `findFiles` (`src/utils/Tools.ts:93`, `287`) and a failed read (`154`, `360`) each give their error message. A failed directory listing, the root's included, is caught by `scanDirectory`'s own `catch` (`src/utils/Tools.ts:204-205`), whose error text takes the place of that directory's fields.
- The planning agent (`src/utils/agents/PlanningAgent.ts`) and the analysis agent defined inside `src/utils/AgentSystem.ts`: inside the pipeline, each is one stage oracle.
- Prompt wording: the prompts are modelled as fixed labels around their inputs. Only the order in which the inputs are embedded is stated.
- The link between the orchestrator and the webview: the extension relays each streaming notification as one view message, and `Chat.StreamedPlanExecutes` assumes that relay.
- React specifics: message ids, timestamps, scrolling and stale closures. The view's state is one record that each event replaces.
- Chat.OnExecute: the posted plan is the stored response. The extension's handling of that message is not part of this model.
