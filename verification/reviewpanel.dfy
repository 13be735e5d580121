/** The review panel of `webview/src/components/CodeReview.tsx`: which
    aspect cards are expanded, which result a card shows, and how the panel
    decides that a review failed at the API and what kind of failure to
    explain. */
module ReviewPanel {

  import opened Wrappers
  import opened Strings
  import opened Review

  // ---------------------------------------------------------------------------
  // Expanded cards

  /** `toggleSection(type)`: flips one key of the expanded set. */
  function Toggle(expanded: set<string>, key: string): (r: set<string>)
    ensures key in r <==> key !in expanded
    ensures forall k :: k != key ==> (k in r <==> k in expanded)
  {
    if key in expanded then expanded - {key} else expanded + {key}
  }

  /** Toggling a card twice leaves every card as it was. */
  lemma ToggleTwice(expanded: set<string>, key: string)
    ensures Toggle(Toggle(expanded, key), key) == expanded
  {
  }

  /** Toggling two different cards commutes. */
  lemma ToggleCommutes(expanded: set<string>, a: string, b: string)
    ensures Toggle(Toggle(expanded, a), b) == Toggle(Toggle(expanded, b), a)
  {
  }

  // ---------------------------------------------------------------------------
  // The result a card shows

  /** `getResultForType(type)`: the first result of that aspect. */
  function ResultFor(results: seq<ReviewResult>, aspect: Aspect): (r: Option<ReviewResult>)
    ensures r.None? <==> forall i :: 0 <= i < |results| ==> results[i].aspect != aspect
    ensures r.Some? ==> exists i :: (0 <= i < |results| && results[i] == r.value && r.value.aspect == aspect
      && forall j :: 0 <= j < i ==> results[j].aspect != aspect)
  {
    if |results| == 0 then None
    else if results[0].aspect == aspect then Some(results[0])
    else
      var r := ResultFor(results[1..], aspect);
      if r.Some? then
        var i :| 0 <= i < |results[1..]| && results[1..][i] == r.value && r.value.aspect == aspect
          && forall j :: 0 <= j < i ==> results[1..][j].aspect != aspect;
        assert results[i + 1] == r.value;
        r
      else r
  }

  /** Every card finds its own aspect's entry in a completed review. */
  lemma CardsShowTheirAspect(code: string, apiKey: string, attempts: Attempts, i: nat)
    requires i < 4
    requires PerformCodeReview(code, apiKey, attempts).Success?
    ensures var results := PerformCodeReview(code, apiKey, attempts).value;
      ResultFor(results, AspectOrder[i]) == Some(results[i])
  {
    var results := PerformCodeReview(code, apiKey, attempts).value;
    var r := ResultFor(results, AspectOrder[i]);
    assert results[i].aspect == AspectOrder[i];
    var k :| 0 <= k < |results| && results[k] == r.value && r.value.aspect == AspectOrder[i]
      && forall j :: 0 <= j < k ==> results[j].aspect != AspectOrder[i];
    assert results[k].aspect == AspectOrder[k];
  }

  // ---------------------------------------------------------------------------
  // API-error detection

  const ApiCallFailed: string := "API call failed"
  const InvalidKeyText: string := "Invalid API key"
  const RateLimitText: string := "Rate limit"
  const ServerErrorText: string := "server error"
  const TimeoutText: string := "timeout"

  /** An issue that reads as a failure of the API rather than a finding. */
  predicate IsApiErrorIssue(issue: string) {
    || Contains(issue, ApiCallFailed)
    || Contains(issue, InvalidKeyText)
    || Contains(issue, RateLimitText)
    || Contains(issue, ServerErrorText)
    || Contains(issue, TimeoutText)
  }

  /** `hasApiErrors`: some issue of some result reads as an API failure. */
  predicate HasApiErrors(results: seq<ReviewResult>) {
    exists i, j :: 0 <= i < |results| && 0 <= j < |results[i].issues| && IsApiErrorIssue(results[i].issues[j])
  }

  /** The explanation the panel shows. */
  datatype ErrorKind = InvalidKey | RateLimited | ServerError | TimedOut | OtherApiError

  /** The kind of an error issue, the more specific phrases first. */
  function Classify(issue: string): (k: ErrorKind)
    ensures k == InvalidKey <==> Contains(issue, InvalidKeyText)
    ensures k == RateLimited <==> !Contains(issue, InvalidKeyText) && Contains(issue, RateLimitText)
    ensures k == ServerError <==>
      (!Contains(issue, InvalidKeyText) && !Contains(issue, RateLimitText) && Contains(issue, ServerErrorText))
    ensures k == TimedOut <==> (!Contains(issue, InvalidKeyText) && !Contains(issue, RateLimitText)
      && !Contains(issue, ServerErrorText) && Contains(issue, TimeoutText))
  {
    if Contains(issue, InvalidKeyText) then InvalidKey
    else if Contains(issue, RateLimitText) then RateLimited
    else if Contains(issue, ServerErrorText) then ServerError
    else if Contains(issue, TimeoutText) then TimedOut
    else OtherApiError
  }

  /** The first error issue of a list, if any. */
  function FirstErrorIssue(issues: seq<string>): (r: Option<nat>)
    ensures r.None? <==> forall j :: 0 <= j < |issues| ==> !IsApiErrorIssue(issues[j])
    ensures r.Some? ==> (r.value < |issues| && IsApiErrorIssue(issues[r.value])
      && forall j :: 0 <= j < r.value ==> !IsApiErrorIssue(issues[j]))
  {
    if |issues| == 0 then None
    else if IsApiErrorIssue(issues[0]) then Some(0)
    else
      match FirstErrorIssue(issues[1..])
      case None => None
      case Some(j) => Some(j + 1)
  }

  /** The first result that has an error issue, if any. */
  function FirstErrorResult(results: seq<ReviewResult>): (r: Option<nat>)
    ensures r.None? <==> forall i :: 0 <= i < |results| ==> FirstErrorIssue(results[i].issues).None?
    ensures r.Some? ==> (r.value < |results| && FirstErrorIssue(results[r.value].issues).Some?
      && forall i :: 0 <= i < r.value ==> FirstErrorIssue(results[i].issues).None?)
  {
    FirstErrorResultFrom(results, 0)
  }

  /** The first result at or after `from` that has an error issue. */
  function FirstErrorResultFrom(results: seq<ReviewResult>, from: nat): (r: Option<nat>)
    requires from <= |results|
    ensures r.None? <==> forall i :: from <= i < |results| ==> FirstErrorIssue(results[i].issues).None?
    ensures r.Some? ==> (from <= r.value < |results| && FirstErrorIssue(results[r.value].issues).Some?
      && forall i :: from <= i < r.value ==> FirstErrorIssue(results[i].issues).None?)
    decreases |results| - from
  {
    if from == |results| then None
    else if FirstErrorIssue(results[from].issues).Some? then Some(from)
    else FirstErrorResultFrom(results, from + 1)
  }

  /** `getApiErrorType()`: the kind of the first error issue of the first
      result that has one; `None` (the code's `null`) when there is none. */
  function ApiErrorType(results: seq<ReviewResult>): (r: Option<ErrorKind>)
    ensures r.None? <==> !HasApiErrors(results)
    ensures r.Some? ==> exists i: nat, j: nat :: FirstErrorAt(results, i, j) && r.value == Classify(results[i].issues[j])
  {
    match FirstErrorResult(results)
    case None => None
    case Some(i) =>
      var j := FirstErrorIssue(results[i].issues).value;
      Some(Classify(results[i].issues[j]))
  }

  /** Issue `j` of result `i` is the first error issue, scanning results in
      order and each result's issues in order. */
  ghost predicate FirstErrorAt(results: seq<ReviewResult>, i: nat, j: nat) {
    && i < |results| && j < |results[i].issues| && IsApiErrorIssue(results[i].issues[j])
    && (forall i' :: 0 <= i' < i ==> forall j' :: 0 <= j' < |results[i'].issues| ==>
          !IsApiErrorIssue(results[i'].issues[j']))
    && (forall j' :: 0 <= j' < j ==> !IsApiErrorIssue(results[i].issues[j']))
  }

  /** The first error issue is unique, so the explanation is well defined. */
  lemma FirstErrorUnique(results: seq<ReviewResult>, i: nat, j: nat, i': nat, j': nat)
    requires FirstErrorAt(results, i, j) && FirstErrorAt(results, i', j')
    ensures i == i' && j == j'
  {
  }

  // ---------------------------------------------------------------------------
  // What the agent's failures look like on the panel

  /** Every failed aspect raises the panel's API-error banner, whatever was
      thrown: its one issue starts with "API call failed". */
  lemma FailureIsApiError(aspect: Aspect, t: Thrown)
    ensures IsApiErrorIssue(FailureResult(aspect, t).issues[0])
    ensures HasApiErrors([FailureResult(aspect, t)])
  {
    var issue := FailureResult(aspect, t).issues[0];
    assert issue == FailurePrefix + ThrownMessage(t);
    OccursByChars(FailurePrefix, ApiCallFailed, 0);
    ContainsAt(FailurePrefix, ApiCallFailed, 0);
    ContainsInConcat(FailurePrefix, ThrownMessage(t), ApiCallFailed);
    assert [FailureResult(aspect, t)][0].issues[0] == issue;
  }

  /** The panel explains an HTTP failure the way the review agent meant
      it: 401 as an invalid key, 429 as the rate limit and 500 and above as
      a server error. */
  lemma HttpFailureClassified(aspect: Aspect, response: HttpResponse)
    ensures var issue := FailureResult(aspect, ErrorValue(HttpErrorMessage(Some(response)))).issues[0];
      && (response.status == 401 ==> Classify(issue) == InvalidKey)
      && (response.status == 429 ==> Classify(issue) == RateLimited)
      && (response.status >= 500 ==> Classify(issue) == ServerError)
  {
    var message := HttpErrorMessage(Some(response));
    assert FailureResult(aspect, ErrorValue(message)).issues[0] == FailurePrefix + message;
    if response.status == 401 {
      InvalidKeyIssue();
    } else if response.status == 429 {
      RateLimitIssue();
    } else if response.status >= 500 {
      ServerErrorIssue();
    }
  }

  lemma InvalidKeyIssue()
    ensures Classify(FailurePrefix + InvalidKeyMessage) == InvalidKey
  {
    OccursByChars(InvalidKeyMessage, InvalidKeyText, 0);
    MessageClassified(FailurePrefix, InvalidKeyMessage, InvalidKeyText, 0);
  }

  lemma RateLimitIssue()
    ensures Classify(FailurePrefix + RateLimitMessage) == RateLimited
  {
    var issue := FailurePrefix + RateLimitMessage;
    OccursByChars(RateLimitMessage, RateLimitText, 0);
    MessageClassified(FailurePrefix, RateLimitMessage, RateLimitText, 0);
    assert !Contains(issue, InvalidKeyText) by {
      assert InvalidKeyText[2] == 'v';
      RateLimitLacksV();
      MissingCharNotContained(issue, InvalidKeyText, 'v');
    }
  }

  lemma ServerErrorIssue()
    ensures Classify(FailurePrefix + ServerErrorMessage) == ServerError
  {
    var issue := FailurePrefix + ServerErrorMessage;
    OccursByChars(ServerErrorMessage, ServerErrorText, 11);
    MessageClassified(FailurePrefix, ServerErrorMessage, ServerErrorText, 11);
    assert !Contains(issue, InvalidKeyText) by {
      assert InvalidKeyText[12] == 'k';
      ServerErrorLacksK();
      MissingCharNotContained(issue, InvalidKeyText, 'k');
    }
    assert !Contains(issue, RateLimitText) by {
      assert RateLimitText[0] == 'R';
      ServerErrorLacksR();
      MissingCharNotContained(issue, RateLimitText, 'R');
    }
  }

  /** The rate-limit issue has no `v`, which "Invalid API key" has. */
  lemma RateLimitLacksV()
    ensures 'v' !in FailurePrefix + RateLimitMessage
  {
    assert 'v' !in TryAgainLater by { TryAgainLaterLacksV(); }
  }

  /** The server-error issue has no `k`, which "Invalid API key" has. */
  lemma ServerErrorLacksK()
    ensures 'k' !in FailurePrefix + ServerErrorMessage
  {
    assert 'k' !in TryAgainLater by { TryAgainLaterLacksK(); }
  }

  /** The server-error issue has no `R`, which "Rate limit" has. */
  lemma ServerErrorLacksR()
    ensures 'R' !in FailurePrefix + ServerErrorMessage
  {
    assert 'R' !in TryAgainLater by { TryAgainLaterLacksR(); }
  }

  lemma TryAgainLaterLacksV() ensures 'v' !in TryAgainLater { }
  lemma TryAgainLaterLacksK() ensures 'k' !in TryAgainLater { }
  lemma TryAgainLaterLacksR() ensures 'R' !in TryAgainLater { }

  /** What a failed aspect's issue starts with. */
  const FailurePrefix: string := "API call failed: "

  /** An occurrence, checked one character at a time. */
  lemma OccursByChars(s: string, pat: string, at: nat)
    requires at + |pat| <= |s| && forall i :: 0 <= i < |pat| ==> s[at + i] == pat[i]
    ensures OccursAt(s, pat, at)
  {
    assert s[at..at + |pat|] == pat;
  }

  /** A message holding `pat` at `at` still holds it behind a prefix. */
  lemma MessageClassified(prefix: string, message: string, pat: string, at: nat)
    requires OccursAt(message, pat, at)
    ensures Contains(prefix + message, pat)
  {
    ContainsAt(message, pat, at);
    ContainsInConcat(prefix, message, pat);
  }

  /** The banner reports the first failed aspect: when the bug aspect's call
      failed with status 401, the panel explains an invalid key, whatever
      the other aspects returned. */
  lemma FirstFailureDecides(response: HttpResponse, rest: seq<ReviewResult>)
    requires response.status == 401
    ensures ApiErrorType([FailureResult(Bug, ErrorValue(HttpErrorMessage(Some(response))))] + rest)
      == Some(InvalidKey)
  {
    var first := FailureResult(Bug, ErrorValue(HttpErrorMessage(Some(response))));
    var results := [first] + rest;
    FailureIsApiError(Bug, ErrorValue(HttpErrorMessage(Some(response))));
    HttpFailureClassified(Bug, response);
    assert results[0] == first;
    assert FirstErrorIssue(first.issues) == Some(0);
    assert FirstErrorResult(results) == Some(0);
  }
}
