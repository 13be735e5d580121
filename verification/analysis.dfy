/** The context-gathering agent of `src/utils/agents/AnalysisAgent.ts`: the
    word extraction that picks search terms and identifiers from the request,
    the gap and confidence heuristic, the merging of gathered context, and
    the bounded thinking loop. Tool results and model replies are oracle
    inputs; confidence is kept in integer tenths. */
module Analysis {

  import opened Wrappers
  import opened Strings

  // ---------------------------------------------------------------------------
  // Context

  /** `ContextGatheringResult`. */
  datatype Context = Context(
    projectStructure: string,
    relevantFiles: seq<string>,
    existingVariables: seq<string>,
    dependencies: string,
    analysis: string)

  /** `Partial<ContextGatheringResult>` as far as the agent fills it. */
  datatype Additional = Additional(
    projectStructure: Option<string>,
    relevantFiles: Option<seq<string>>,
    existingVariables: Option<seq<string>>,
    dependencies: Option<string>)

  const NothingAdditional: Additional := Additional(None, None, None, None)

  /** The tool calls the agent makes, with the arguments it passes. */
  datatype ToolRequest =
    | StructureRequest(depth: string)
    | SearchRequest(query: string)
    | VariableRequest(variableName: string, scope: string)
    | DependencyRequest(filePath: string, includeDev: bool)

  /** The position in the tool list each request is sent to. */
  function ToolPosition(r: ToolRequest): nat {
    match r
    case SearchRequest(_) => 0
    case StructureRequest(_) => 2
    case VariableRequest(_, _) => 3
    case DependencyRequest(_, _) => 4
  }

  /** What a tool call produced: its text, or the message it threw. */
  type Invoke = ToolRequest -> Result<string, Thrown>

  // ---------------------------------------------------------------------------
  // prompt.split(/\s+/)

  predicate IsNonSpace(c: char) { !IsSpace(c) }

  /** `s.split(/\s+/)`: the pieces between maximal whitespace runs, with an
      empty first piece when `s` starts with whitespace and an empty last
      piece when it ends with whitespace. */
  function SplitSpaces(s: string): (r: seq<string>)
    ensures |r| >= 1
    ensures forall i :: 0 <= i < |r| ==> forall k :: 0 <= k < |r[i]| ==> !IsSpace(r[i][k])
    decreases |s|
  {
    var e := Span(s, 0, IsNonSpace);
    if e == |s| then [s]
    else
      var k := SkipSpaces(s, e);
      [s[..e]] + SplitSpaces(s[k..])
  }

  /** Words separated by single spaces split back into the words. */
  lemma {:induction false} SplitSpacesJoin(words: seq<string>)
    requires |words| >= 1
    requires forall i :: 0 <= i < |words| ==> words[i] != [] && forall k :: 0 <= k < |words[i]| ==> !IsSpace(words[i][k])
    ensures SplitSpaces(Join(words, " ")) == words
    decreases |words|
  {
    var s := Join(words, " ");
    var w := words[0];
    if |words| == 1 {
      SpanFrom(s, 0, |s|, IsNonSpace);
    } else {
      var rest := Join(words[1..], " ");
      JoinCons(w, words[1..], " ");
      assert s == w + " " + rest;
      SpanFrom(s, 0, |w|, IsNonSpace);
      assert s[|w|] == ' ';
      JoinStart(words[1..], " ");
      assert rest[0] == words[1][0];
      assert s[|w| + 1] == rest[0];
      assert SkipSpaces(s, |w|) == |w| + 1 by {
        SpanFrom(s, |w|, |w| + 1, IsSpace);
      }
      assert s[..|w|] == w;
      assert s[|w| + 1..] == rest;
      SplitSpacesJoin(words[1..]);
    }
  }

  // ---------------------------------------------------------------------------
  // extractSearchTerms

  const StopWords: seq<string> := ["add", "create", "implement", "the", "a", "an", "and", "or", "but",
    "in", "on", "at", "to", "for", "of", "with", "by"]

  const MaxSearchTerms: nat := 5

  /** A word worth searching for. */
  predicate IsSearchTerm(word: string) {
    |word| > 3 && word !in StopWords
  }

  /** The words that pass the filter, in order. */
  function SearchTerms(words: seq<string>): (r: seq<string>)
    ensures |r| <= |words|
    ensures forall i :: 0 <= i < |r| ==> IsSearchTerm(r[i]) && r[i] in words
    decreases |words|
  {
    if |words| == 0 then []
    else if IsSearchTerm(words[0]) then [words[0]] + SearchTerms(words[1..])
    else SearchTerms(words[1..])
  }

  /** A word list that passes the filter entirely is kept entirely. */
  lemma {:induction false} SearchTermsKeepAll(words: seq<string>)
    requires forall i :: 0 <= i < |words| ==> IsSearchTerm(words[i])
    ensures SearchTerms(words) == words
    decreases |words|
  {
    if |words| > 0 {
      SearchTermsKeepAll(words[1..]);
    }
  }

  /** Filtering a concatenation filters each part. */
  lemma {:induction false} SearchTermsAppend(a: seq<string>, b: seq<string>)
    ensures SearchTerms(a + b) == SearchTerms(a) + SearchTerms(b)
    decreases |a|
  {
    if |a| == 0 {
      assert a + b == b;
    } else {
      assert (a + b)[0] == a[0] && (a + b)[1..] == a[1..] + b;
      SearchTermsAppend(a[1..], b);
    }
  }

  /** Every word keeps its place: a qualifying word is kept between the
      terms before it and the terms after it, and any other word is
      dropped. */
  lemma SearchTermsInPlace(a: seq<string>, w: string, b: seq<string>)
    ensures SearchTerms(a + [w] + b) == SearchTerms(a) + (if IsSearchTerm(w) then [w] else []) + SearchTerms(b)
  {
    SearchTermsAppend(a + [w], b);
    SearchTermsAppend(a, [w]);
    assert [w][1..] == [];
  }

  /** Stop words and short words are never searched for. */
  lemma SearchTermsDropStopWords(words: seq<string>, w: string)
    requires w in StopWords || |w| <= 3
    ensures w !in SearchTerms(words)
  {
  }

  predicate IsLowerCase(s: string) {
    forall k :: 0 <= k < |s| ==> !IsUpper(s[k])
  }

  /** `extractSearchTerms(prompt)`: at most five lower-case words of the
      request, in order, each longer than three characters and not a stop
      word. */
  function ExtractSearchTerms(prompt: string): (r: seq<string>)
    ensures var terms := SearchTerms(SplitSpaces(ToLower(prompt)));
      r <= terms && |r| == (if |terms| < MaxSearchTerms then |terms| else MaxSearchTerms)
    ensures |r| <= MaxSearchTerms
    ensures forall i :: 0 <= i < |r| ==> IsSearchTerm(r[i]) && IsLowerCase(r[i])
    ensures forall i :: 0 <= i < |r| ==> forall k :: 0 <= k < |r[i]| ==> !IsSpace(r[i][k])
  {
    var words := SplitSpaces(ToLower(prompt));
    var terms := SearchTerms(words);
    forall i | 0 <= i < |terms|
      ensures IsLowerCase(terms[i]) && forall k :: 0 <= k < |terms[i]| ==> !IsSpace(terms[i][k])
    {
      SplitSpacesLower(ToLower(prompt), terms[i]);
    }
    terms[..if |terms| < MaxSearchTerms then |terms| else MaxSearchTerms]
  }

  /** The pieces of a lower-case text are lower case. */
  lemma SplitSpacesLower(s: string, w: string)
    requires IsLowerCase(s) && w in SplitSpaces(s)
    ensures IsLowerCase(w) && forall k :: 0 <= k < |w| ==> !IsSpace(w[k])
    decreases |s|
  {
    var e := Span(s, 0, IsNonSpace);
    if e < |s| {
      var k := SkipSpaces(s, e);
      if w != s[..e] {
        assert w in SplitSpaces(s[k..]);
        SplitSpacesLower(s[k..], w);
      }
    }
  }

  /** A request made of up to five lower-case search terms yields exactly
      those terms. */
  lemma SearchTermsRoundTrip(words: seq<string>)
    requires 1 <= |words| <= MaxSearchTerms
    requires forall i :: 0 <= i < |words| ==> IsSearchTerm(words[i]) && IsLowerCase(words[i])
    requires forall i :: 0 <= i < |words| ==> forall k :: 0 <= k < |words[i]| ==> !IsSpace(words[i][k])
    ensures ExtractSearchTerms(Join(words, " ")) == words
  {
    var s := Join(words, " ");
    assert ToLower(s) == s by { LowerJoin(words); }
    assert SplitSpaces(s) == words by { SplitSpacesJoin(words); }
    assert SearchTerms(words) == words by { SearchTermsKeepAll(words); }
    assert words[..|words|] == words;
  }

  /** In a request of lower-case words separated by single spaces, a
      qualifying word is extracted at its place among the qualifying words,
      as long as fewer than five come before it. */
  lemma SearchTermInPlace(a: seq<string>, w: string, b: seq<string>)
    requires var words := a + [w] + b;
      forall i :: 0 <= i < |words| ==>
        words[i] != [] && IsLowerCase(words[i]) && forall k :: 0 <= k < |words[i]| ==> !IsSpace(words[i][k])
    requires IsSearchTerm(w) && |SearchTerms(a)| < MaxSearchTerms
    ensures var r := ExtractSearchTerms(Join(a + [w] + b, " "));
      var n := |SearchTerms(a)|;
      n < |r| && r[..n] == SearchTerms(a) && r[n] == w
  {
    var words := a + [w] + b;
    var s := Join(words, " ");
    assert ToLower(s) == s by { LowerJoin(words); }
    assert SplitSpaces(s) == words by { SplitSpacesJoin(words); }
    SearchTermsInPlace(a, w, b);
    TakeKeepsPlace(SearchTerms(a), w, SearchTerms(b), MaxSearchTerms);
  }

  /** Lower-casing a text of lower-case words joined by spaces changes
      nothing. */
  lemma LowerJoin(words: seq<string>)
    requires forall i :: 0 <= i < |words| ==> IsLowerCase(words[i])
    ensures ToLower(Join(words, " ")) == Join(words, " ")
  {
    var s := Join(words, " ");
    JoinLower(words);
    assert forall k :: 0 <= k < |s| ==> LowerChar(s[k]) == s[k];
  }

  lemma {:induction false} JoinLower(words: seq<string>)
    requires forall i :: 0 <= i < |words| ==> IsLowerCase(words[i])
    ensures IsLowerCase(Join(words, " "))
    decreases |words|
  {
    if |words| > 1 {
      JoinLower(words[1..]);
      JoinCons(words[0], words[1..], " ");
      var s := Join(words, " ");
      var rest := Join(words[1..], " ");
      forall k | 0 <= k < |s| ensures !IsUpper(s[k]) {
        if k < |words[0]| { assert s[k] == words[0][k]; }
        else if k > |words[0]| { assert s[k] == rest[k - |words[0]| - 1]; }
      }
    }
  }

  // ---------------------------------------------------------------------------
  // extractVariablePatterns:  prompt.match(/\b[a-zA-Z][a-zA-Z0-9]*\b/g)

  predicate IsNonWordChar(c: char) { !IsWordChar(c) }

  predicate AllAlnum(s: string) { forall k :: 0 <= k < |s| ==> IsAlnum(s[k]) }

  /** A match of the pattern: a letter followed by letters and digits. */
  predicate IsIdentifier(t: string) {
    |t| >= 1 && IsLetter(t[0]) && AllAlnum(t)
  }

  /** `t` occurs at `p` with a word boundary on both sides. */
  ghost predicate DelimitedAt(s: string, t: string, p: nat) {
    && p + |t| <= |s| && s[p..p + |t|] == t
    && (p == 0 || !IsWordChar(s[p - 1]))
    && (p + |t| == |s| || !IsWordChar(s[p + |t|]))
  }

  /** The global matches, in order. A match must start at a word boundary,
      so it starts where a run of `\w` characters starts; the greedy letter
      and digit run must then reach a word boundary, which it does only when
      it covers the whole `\w` run (an underscore stops it inside the run,
      and no shorter run ends at a boundary either). So the matches are
      exactly the `\w` runs that are identifiers. */
  function Identifiers(s: string): (r: seq<string>)
    decreases |s|
  {
    var j := Span(s, 0, IsNonWordChar);
    if j == |s| then []
    else
      var e := Span(s, j, IsWordChar);
      var run := s[j..e];
      (if IsLetter(run[0]) && AllAlnum(run) then [run] else []) + Identifiers(s[e..])
  }

  /** Every match is an identifier. */
  lemma {:induction false} IdentifiersSound(s: string)
    ensures forall i :: 0 <= i < |Identifiers(s)| ==> IsIdentifier(Identifiers(s)[i])
    decreases |s|
  {
    var j, e := IdentifiersScan(s);
    if j < |s| {
      IdentifiersSound(s[e..]);
    }
  }

  /** Every match stands in the text between word boundaries. */
  lemma {:induction false} IdentifierPosition(s: string, i: nat) returns (p: nat)
    requires i < |Identifiers(s)|
    ensures DelimitedAt(s, Identifiers(s)[i], p)
    decreases |s|
  {
    var j, e, h := IdentifiersUnfold(s, i);
    if i < h {
      p := j;
    } else {
      var k := i - h;
      var q := IdentifierPosition(s[e..], k);
      p := ShiftNth(s, e, k, q);
    }
  }

  /** The `k`-th match of a suffix that starts after a word character is
      delimited in the whole text. */
  lemma ShiftNth(s: string, e: nat, k: nat, q: nat) returns (p: nat)
    requires 0 < e <= |s| && IsWordChar(s[e - 1]) && (e == |s| || !IsWordChar(s[e]))
    requires k < |Identifiers(s[e..])| && DelimitedAt(s[e..], Identifiers(s[e..])[k], q)
    ensures p == e + q && DelimitedAt(s, Identifiers(s[e..])[k], p)
  {
    var w := Identifiers(s[e..])[k];
    p := e + q;
    assert DelimitedAt(s, w, p) by {
      IdentifiersSound(s[e..]);
      ShiftDelimited(s, e, w, q);
    }
  }

  /** One step of the scan, seen from match `i`: either it is the first word
      run, standing between word boundaries, or it is a match of the rest. */
  lemma IdentifiersUnfold(s: string, i: nat) returns (j: nat, e: nat, h: nat)
    requires i < |Identifiers(s)|
    ensures j < e <= |s| && IsWordChar(s[e - 1]) && (e == |s| || !IsWordChar(s[e]))
    ensures h <= 1 && |Identifiers(s)| == h + |Identifiers(s[e..])| && e <= |s|
    ensures i < h ==> Identifiers(s)[i] == s[j..e] && DelimitedAt(s, s[j..e], j)
    ensures h <= i ==> Identifiers(s)[i] == Identifiers(s[e..])[i - h]
  {
    var head;
    j, e, head := IdentifiersStep(s);
    h := |head|;
    if h == 1 {
      RunDelimited(s, j, e);
    }
    if h <= i {
      assert Identifiers(s)[i] == (head + Identifiers(s[e..]))[i];
    }
  }

  lemma IdentifiersStep(s: string) returns (j: nat, e: nat, head: seq<string>)
    requires |Identifiers(s)| > 0
    ensures j < e <= |s| && IsWordChar(s[e - 1]) && (e == |s| || !IsWordChar(s[e]))
    ensures j == Span(s, 0, IsNonWordChar) && e == Span(s, j, IsWordChar)
    ensures head == (if IsIdentifier(s[j..e]) then [s[j..e]] else [])
    ensures Identifiers(s) == head + Identifiers(s[e..])
  {
    j := Span(s, 0, IsNonWordChar);
    e := Span(s, j, IsWordChar);
    var run := s[j..e];
    head := if IsLetter(run[0]) && AllAlnum(run) then [run] else [];
  }

  /** A maximal run of word characters after non-word characters stands
      between word boundaries. */
  lemma RunDelimited(s: string, j: nat, e: nat)
    requires j < |s| && j == Span(s, 0, IsNonWordChar) && e == Span(s, j, IsWordChar)
    ensures DelimitedAt(s, s[j..e], j)
  {
    if j > 0 {
      assert IsNonWordChar(s[j - 1]);
    }
  }

  /** An identifier delimited in a suffix that starts after a word character
      is delimited in the whole text. */
  lemma ShiftDelimited(s: string, e: nat, t: string, p: nat)
    requires 0 < e <= |s| && IsWordChar(s[e - 1]) && (e == |s| || !IsWordChar(s[e]))
    requires IsIdentifier(t) && DelimitedAt(s[e..], t, p)
    ensures DelimitedAt(s, t, e + p)
  {
    assert s[e + p..e + p + |t|] == s[e..][p..p + |t|];
    if p > 0 {
      assert s[e + p - 1] == s[e..][p - 1];
    }
    if e + p + |t| < |s| {
      assert s[e + p + |t|] == s[e..][p + |t|];
    }
  }

  const MaxVariablePatterns: nat := 3

  /** `extractVariablePatterns(prompt)`: the first three matches longer than
      three characters, in order and in their original case. */
  function ExtractVariablePatterns(prompt: string): (r: seq<string>)
    ensures var long := LongerThanThree(Identifiers(prompt));
      r <= long && |r| == (if |long| < MaxVariablePatterns then |long| else MaxVariablePatterns)
    ensures |r| <= MaxVariablePatterns
    ensures forall i :: 0 <= i < |r| ==> IsIdentifier(r[i]) && |r[i]| > 3
    ensures forall i :: 0 <= i < |r| ==> r[i] in Identifiers(prompt)
  {
    var ids := Identifiers(prompt);
    IdentifiersSound(prompt);
    var long := LongerThanThree(ids);
    long[..if |long| < MaxVariablePatterns then |long| else MaxVariablePatterns]
  }

  /** Every extracted identifier stands in the request between word
      boundaries. */
  lemma VariablePatternPosition(prompt: string, i: nat) returns (p: nat)
    requires i < |ExtractVariablePatterns(prompt)|
    ensures DelimitedAt(prompt, ExtractVariablePatterns(prompt)[i], p)
  {
    var ids := Identifiers(prompt);
    var k :| 0 <= k < |ids| && ids[k] == ExtractVariablePatterns(prompt)[i];
    p := IdentifierPosition(prompt, k);
  }

  /** The identifiers kept by the length filter, in order. */
  function LongerThanThree(ids: seq<string>): (r: seq<string>)
    ensures forall i :: 0 <= i < |r| ==> |r[i]| > 3 && r[i] in ids
    decreases |ids|
  {
    if |ids| == 0 then []
    else if |ids[0]| > 3 then [ids[0]] + LongerThanThree(ids[1..])
    else LongerThanThree(ids[1..])
  }

  /** Words separated by single spaces are matched one by one. */
  lemma {:induction false} IdentifiersOfJoin(words: seq<string>)
    requires |words| >= 1
    requires forall i :: 0 <= i < |words| ==> IsIdentifier(words[i])
    ensures Identifiers(Join(words, " ")) == words
    decreases |words|
  {
    var w := words[0];
    if |words| == 1 {
      IdentifierFirst(w, []);
      assert w + [] == w;
    } else {
      var tail := words[1..];
      var rest := Join(tail, " ");
      assert Join(words, " ") == w + (" " + rest) by { JoinCons(w, tail, " "); }
      assert Identifiers(w + (" " + rest)) == [w] + Identifiers(rest) by { SpaceThenWords(w, tail); }
      assert Identifiers(rest) == tail by { IdentifiersOfJoin(tail); }
      assert [w] + tail == words;
    }
  }

  /** An identifier, a space and more identifiers: the first is matched,
      then the scan goes on with the rest. */
  lemma SpaceThenWords(w: string, tail: seq<string>)
    requires IsIdentifier(w) && |tail| >= 1
    requires forall i :: 0 <= i < |tail| ==> IsIdentifier(tail[i])
    ensures Identifiers(w + (" " + Join(tail, " "))) == [w] + Identifiers(Join(tail, " "))
  {
    var rest := Join(tail, " ");
    IdentifierFirst(w, " " + rest);
    JoinStart(tail, " ");
    assert (" " + rest)[1] == tail[0][0];
    assert (" " + rest)[1..] == rest;
    IdentifiersAfterSeparator(" " + rest);
  }

  /** An identifier at the start, followed by a non-word character or
      nothing, is the first match. */
  lemma IdentifierFirst(w: string, t: string)
    requires IsIdentifier(w) && (t == [] || !IsWordChar(t[0]))
    ensures Identifiers(w + t) == [w] + Identifiers(t)
  {
    var s := w + t;
    assert Span(s, 0, IsNonWordChar) == 0 by { assert s[0] == w[0]; }
    assert Span(s, 0, IsWordChar) == |w| by {
      forall k | 0 <= k < |w| ensures IsWordChar(s[k]) { assert s[k] == w[k]; }
      if |w| < |s| { assert s[|w|] == t[0]; }
      SpanFrom(s, 0, |w|, IsWordChar);
    }
    assert s[0..|w|] == w && s[|w|..] == t;
  }

  /** Leading non-word characters are skipped. */
  lemma IdentifiersAfterSeparator(t: string)
    requires |t| >= 2 && !IsWordChar(t[0]) && IsWordChar(t[1])
    ensures Identifiers(t) == Identifiers(t[1..])
  {
    SpanFrom(t, 0, 1, IsNonWordChar);
    var e := Span(t, 1, IsWordChar);
    var u := t[1..];
    assert Span(u, 0, IsNonWordChar) == 0;
    SpanShift(t, 1, IsWordChar);
    assert u[0..e - 1] == t[1..e];
    assert u[e - 1..] == t[e..];
  }

  /** Spanning a suffix is spanning the text, shifted. */
  lemma {:induction false} SpanShift(s: string, d: nat, p: char -> bool)
    requires d <= |s|
    ensures Span(s[d..], 0, p) + d == Span(s, d, p)
  {
    var u := s[d..];
    var a := Span(u, 0, p);
    var b := Span(s, d, p);
    assert forall k :: d <= k < a + d ==> p(s[k]) by {
      forall k | d <= k < a + d ensures p(s[k]) { assert u[k - d] == s[k]; }
    }
    if a + d < |s| { assert u[a] == s[a + d]; }
    if b < |s| { assert u[b - d] == s[b]; }
    forall k | 0 <= k < b - d ensures p(u[k]) { assert u[k] == s[k + d]; }
  }

  /** Spanning from inside a suffix is spanning the text, shifted. */
  lemma {:induction false} SpanShiftAt(s: string, d: nat, i: nat, p: char -> bool)
    requires d + i <= |s|
    ensures Span(s[d..], i, p) + d == Span(s, d + i, p)
    decreases |s| - d - i
  {
    var u := s[d..];
    if i < |u| {
      assert u[i] == s[d + i];
      if p(u[i]) {
        SpanShiftAt(s, d, i + 1, p);
      }
    }
  }

  /** A run that stops inside `a`, or at its end before a character that
      stops it too, is the same run in `a + t`. */
  lemma {:induction false} SpanOfPrefix(a: string, t: string, i: nat, p: char -> bool)
    requires i <= |a|
    requires Span(a, i, p) < |a| || t == [] || !p(t[0])
    ensures Span(a + t, i, p) == Span(a, i, p)
  {
    var s := a + t;
    var j := Span(a, i, p);
    forall k | i <= k < j ensures p(s[k]) { assert s[k] == a[k]; }
    SpanFrom(s, i, j, p);
    if j < |a| { assert s[j] == a[j]; }
    else if t != [] { assert s[j] == t[0]; }
  }

  /** One step of the scan, for any text. */
  lemma {:induction false} IdentifiersScan(s: string) returns (j: nat, e: nat)
    ensures j == Span(s, 0, IsNonWordChar)
    ensures j == |s| ==> Identifiers(s) == []
    ensures j < |s| ==> j < e <= |s| && e == Span(s, j, IsWordChar)
    ensures j < |s| ==> Identifiers(s) == (if IsIdentifier(s[j..e]) then [s[j..e]] else []) + Identifiers(s[e..])
  {
    j := Span(s, 0, IsNonWordChar);
    e := j;
    if j < |s| {
      e := Span(s, j, IsWordChar);
    }
  }

  /** Leading non-word characters are skipped. */
  lemma {:induction false} NonWordPrefix(n: string, t: string)
    requires forall k :: 0 <= k < |n| ==> !IsWordChar(n[k])
    ensures Identifiers(n + t) == Identifiers(t)
  {
    var s := n + t;
    forall k | 0 <= k < |n| ensures !IsWordChar(s[k]) { assert s[k] == n[k]; }
    SkipNonWords(s, |n|);
    assert s[|n|..] == t;
  }

  lemma {:induction false} SkipNonWords(s: string, d: nat)
    requires d <= |s| && forall k :: 0 <= k < d ==> !IsWordChar(s[k])
    ensures Identifiers(s) == Identifiers(s[d..])
  {
    var j := Span(s, 0, IsNonWordChar);
    SkipStart(s, d);
    if j < |s| {
      var e := Span(s, j, IsWordChar);
      IdentifiersScanAt(s, j, e);
      ScanOfSuffix(s, d, j, e);
    } else {
      var _, _ := IdentifiersScan(s);
      var _, _ := IdentifiersScan(s[d..]);
    }
  }

  /** The scan of `s[d..]` starts where the scan of `s` does, shifted. */
  lemma {:induction false} SkipStart(s: string, d: nat)
    requires d <= |s| && forall k :: 0 <= k < d ==> !IsWordChar(s[k])
    ensures d <= Span(s, 0, IsNonWordChar) && Span(s, 0, IsNonWordChar) - d == Span(s[d..], 0, IsNonWordChar)
  {
    SpanFrom(s, 0, d, IsNonWordChar);
    SpanShiftAt(s, d, 0, IsNonWordChar);
  }

  /** The first run of `s[d..]`, when the scan of `s` finds its first run
      from `j` to `e` past `d`. */
  lemma {:induction false} ScanOfSuffix(s: string, d: nat, j: nat, e: nat)
    requires d <= j < |s| && j - d == Span(s[d..], 0, IsNonWordChar) && e == Span(s, j, IsWordChar)
    ensures Identifiers(s[d..]) == RunMatch(s[j..e]) + Identifiers(s[e..])
  {
    var u := s[d..];
    var ju := j - d;
    var eu := e - d;
    assert eu == Span(u, ju, IsWordChar) by { SpanShiftAt(s, d, ju, IsWordChar); }
    IdentifiersScanAt(u, ju, eu);
    SliceOfSuffix(s, d, ju, eu, j, e);
  }

  lemma SliceOfSuffix(s: string, d: nat, a: nat, b: nat, j: nat, e: nat)
    requires j == d + a && e == d + b && j <= e <= |s|
    ensures s[d..][a..b] == s[j..e] && s[d..][b..] == s[e..]
  {
  }

  /** One step of the scan, at a known first run. */
  lemma IdentifiersScanAt(s: string, j: nat, e: nat)
    requires j == Span(s, 0, IsNonWordChar) && j < |s| && e == Span(s, j, IsWordChar)
    ensures Identifiers(s) == RunMatch(s[j..e]) + Identifiers(s[e..])
  {
  }

  /** What a run of word characters contributes: itself when it is an
      identifier, nothing otherwise. */
  function RunMatch(run: string): seq<string> {
    if IsIdentifier(run) then [run] else []
  }

  /** Where the text is cut at a word boundary, the matches of the whole
      are the matches of each side, in order. */
  lemma {:induction false} IdentifiersConcat(a: string, t: string)
    requires a == [] || t == [] || !IsWordChar(a[|a| - 1]) || !IsWordChar(t[0])
    ensures Identifiers(a + t) == Identifiers(a) + Identifiers(t)
    decreases |a|
  {
    if Span(a, 0, IsNonWordChar) == |a| {
      NonWordPrefix(a, t);
      assert Identifiers(a) == [];
      assert Identifiers(a) + Identifiers(t) == Identifiers(t);
    } else {
      var head, rest := FirstRunShared(a, t);
      IdentifiersConcat(rest, t);
      ConcatAssoc(head, Identifiers(rest), Identifiers(t));
    }
  }

  /** The first run of word characters in `a` is the first run in `a + t`
      too, when `a` and `t` meet at a word boundary. */
  lemma {:induction false} FirstRunShared(a: string, t: string) returns (head: seq<string>, rest: string)
    requires Span(a, 0, IsNonWordChar) < |a|
    requires t == [] || !IsWordChar(a[|a| - 1]) || !IsWordChar(t[0])
    ensures |rest| < |a|
    ensures rest == [] || t == [] || !IsWordChar(rest[|rest| - 1]) || !IsWordChar(t[0])
    ensures Identifiers(a) == head + Identifiers(rest)
    ensures Identifiers(a + t) == head + Identifiers(rest + t)
  {
    var j, e := FirstRunBounds(a, t);
    var j1, e1 := IdentifiersScan(a);
    var j2, e2 := IdentifiersScan(a + t);
    rest := a[e..];
    SliceOfConcat(a, t, j, e);
    head := if IsIdentifier(a[j..e]) then [a[j..e]] else [];
  }

  lemma SliceOfConcat(a: string, t: string, j: nat, e: nat)
    requires j <= e <= |a|
    ensures (a + t)[j..e] == a[j..e] && (a + t)[e..] == a[e..] + t
    ensures a[e..] != [] ==> a[e..][|a[e..]| - 1] == a[|a| - 1]
  {
  }

  /** Where the first run of word characters of `a` starts and ends, in `a`
      and in `a + t` alike. */
  lemma {:induction false} FirstRunBounds(a: string, t: string) returns (j: nat, e: nat)
    requires Span(a, 0, IsNonWordChar) < |a|
    requires t == [] || !IsWordChar(a[|a| - 1]) || !IsWordChar(t[0])
    ensures j == Span(a, 0, IsNonWordChar) == Span(a + t, 0, IsNonWordChar)
    ensures j < |a| && e == Span(a, j, IsWordChar) == Span(a + t, j, IsWordChar)
  {
    j := Span(a, 0, IsNonWordChar);
    e := Span(a, j, IsWordChar);
    SpanOfPrefix(a, t, 0, IsNonWordChar);
    assert e < |a| || IsWordChar(a[|a| - 1]) by {
      if e == |a| { assert IsWordChar(a[j]); }
    }
    SpanOfPrefix(a, t, j, IsWordChar);
  }

  lemma ConcatAssoc<T>(x: seq<T>, y: seq<T>, z: seq<T>)
    ensures x + (y + z) == x + y + z
  {
  }

  /** Every maximal run of word characters keeps its place: an identifier
      is matched between the matches before it and the matches after it,
      and any other run is skipped. */
  lemma WordRunInPlace(a: string, w: string, b: string)
    requires |w| >= 1 && AllWordChars(w)
    requires a == [] || !IsWordChar(a[|a| - 1])
    requires b == [] || !IsWordChar(b[0])
    ensures Identifiers(a + w + b) == Identifiers(a) + (if IsIdentifier(w) then [w] else []) + Identifiers(b)
  {
    IdentifiersConcat(a, w + b);
    ConcatAssoc(a, w, b);
    WordRunFirst(w, b);
    ConcatAssoc(Identifiers(a), if IsIdentifier(w) then [w] else [], Identifiers(b));
  }

  /** A run of word characters at the start, followed by a non-word
      character or nothing, is the first match exactly when it is an
      identifier. */
  lemma WordRunFirst(w: string, b: string)
    requires |w| >= 1 && AllWordChars(w)
    requires b == [] || !IsWordChar(b[0])
    ensures Identifiers(w + b) == (if IsIdentifier(w) then [w] else []) + Identifiers(b)
  {
    var s := w + b;
    assert Span(s, 0, IsNonWordChar) == 0 by { assert s[0] == w[0]; }
    assert Span(s, 0, IsWordChar) == |w| by {
      forall k | 0 <= k < |w| ensures IsWordChar(s[k]) { assert s[k] == w[k]; }
      if |w| < |s| { assert s[|w|] == b[0]; }
      SpanFrom(s, 0, |w|, IsWordChar);
    }
    assert s[0..|w|] == w && s[|w|..] == b;
  }

  /** An identifier longer than three characters that stands between word
      boundaries is extracted at its place among the long identifiers, as
      long as fewer than three come before it. */
  lemma VariablePatternInPlace(a: string, w: string, b: string)
    requires IsIdentifier(w) && |w| > 3
    requires a == [] || !IsWordChar(a[|a| - 1])
    requires b == [] || !IsWordChar(b[0])
    requires |LongerThanThree(Identifiers(a))| < MaxVariablePatterns
    ensures var r := ExtractVariablePatterns(a + w + b);
      var before := LongerThanThree(Identifiers(a));
      |before| < |r| && r[..|before|] == before && r[|before|] == w
  {
    assert AllWordChars(w) by {
      forall k | 0 <= k < |w| ensures IsWordChar(w[k]) { assert IsAlnum(w[k]); }
    }
    WordRunInPlace(a, w, b);
    LongerThanThreeInPlace(Identifiers(a), w, Identifiers(b));
    TakeKeepsPlace(LongerThanThree(Identifiers(a)), w, LongerThanThree(Identifiers(b)), MaxVariablePatterns);
  }

  /** Taking the first `m` items keeps an item that has fewer than `m`
      before it, and everything before it. */
  lemma TakeKeepsPlace<T>(x: seq<T>, w: T, y: seq<T>, m: nat)
    requires |x| < m
    ensures var z := x + [w] + y;
      var r := z[..if |z| < m then |z| else m];
      |x| < |r| && r[..|x|] == x && r[|x|] == w
  {
    var z := x + [w] + y;
    var r := z[..if |z| < m then |z| else m];
    assert r[..|x|] == x;
  }

  /** A request naming up to three identifiers longer than three
      characters, separated by spaces, yields exactly those identifiers. */
  lemma VariablePatternsRoundTrip(words: seq<string>)
    requires 1 <= |words| <= MaxVariablePatterns
    requires forall i :: 0 <= i < |words| ==> IsIdentifier(words[i]) && |words[i]| > 3
    ensures ExtractVariablePatterns(Join(words, " ")) == words
  {
    IdentifiersOfJoin(words);
    LongKeepsAll(words);
  }

  /** Filtering a concatenation filters each part. */
  lemma {:induction false} LongerThanThreeAppend(a: seq<string>, b: seq<string>)
    ensures LongerThanThree(a + b) == LongerThanThree(a) + LongerThanThree(b)
    decreases |a|
  {
    if |a| == 0 {
      assert a + b == b;
    } else {
      assert (a + b)[0] == a[0] && (a + b)[1..] == a[1..] + b;
      LongerThanThreeAppend(a[1..], b);
    }
  }

  /** Every identifier keeps its place: a long one is kept between the
      ones before it and the ones after it, and a short one is dropped. */
  lemma LongerThanThreeInPlace(a: seq<string>, w: string, b: seq<string>)
    ensures LongerThanThree(a + [w] + b) == LongerThanThree(a) + (if |w| > 3 then [w] else []) + LongerThanThree(b)
  {
    LongerThanThreeAppend(a + [w], b);
    LongerThanThreeAppend(a, [w]);
    assert LongerThanThree([w]) == if |w| > 3 then [w] else [] by {
      assert [w][1..] == [];
    }
  }

  lemma {:induction false} LongKeepsAll(ids: seq<string>)
    requires forall i :: 0 <= i < |ids| ==> |ids[i]| > 3
    ensures LongerThanThree(ids) == ids
    decreases |ids|
  {
    if |ids| > 0 {
      LongKeepsAll(ids[1..]);
    }
  }

  /** An underscore joins words into one `\w` run, which the pattern then
      rejects as a whole: no part of "user_name" is extracted. */
  lemma UnderscoreRunRejected(a: string, b: string)
    requires IsIdentifier(a) && IsIdentifier(b)
    ensures Identifiers(a + "_" + b) == []
  {
    var s := a + "_" + b;
    assert Span(s, 0, IsNonWordChar) == 0;
    forall k | 0 <= k < |s| ensures IsWordChar(s[k]) {
      if k < |a| { assert s[k] == a[k]; }
      else if k > |a| { assert s[k] == b[k - |a| - 1]; }
    }
    SpanFrom(s, 0, |s|, IsWordChar);
    assert s[|a|] == '_';
    assert s[|s|..] == [];
    assert Span([], 0, IsNonWordChar) == 0;
  }

  // ---------------------------------------------------------------------------
  // analyzeContextGaps

  datatype Gap = ProjectStructureGap | RelevantFilesGap | DependenciesGap

  /** The gap analysis: whether to gather more, the gaps in a fixed order,
      and the confidence in tenths. */
  datatype GapAnalysis = GapAnalysis(needsMore: bool, gaps: seq<Gap>, confidence: nat)

  const BaseConfidence: int := 5
  const Threshold: int := 8
  const MinStructureLength: nat := 200
  const MinDependenciesLength: nat := 100

  /** The confidence each gap costs, in tenths. */
  function GapWeight(g: Gap): nat {
    match g
    case ProjectStructureGap => 2
    case RelevantFilesGap => 3
    case DependenciesGap => 2
  }

  function TotalWeight(gaps: seq<Gap>): nat
    decreases |gaps|
  {
    if |gaps| == 0 then 0 else GapWeight(gaps[0]) + TotalWeight(gaps[1..])
  }

  /** Whether the context lacks what gap `g` names. */
  predicate Lacks(ctx: Context, g: Gap) {
    match g
    case ProjectStructureGap => |ctx.projectStructure| < MinStructureLength
    case RelevantFilesGap => |ctx.relevantFiles| == 0
    case DependenciesGap => |ctx.dependencies| < MinDependenciesLength
  }

  /** The gap names in their fixed order. */
  const GapOrder: seq<Gap> := [ProjectStructureGap, RelevantFilesGap, DependenciesGap]

  /** `analyzeContextGaps(aiResponse, context)`. */
  function AnalyzeContextGaps(reply: string, ctx: Context): (r: GapAnalysis)
    ensures forall g :: g in r.gaps <==> Lacks(ctx, g)
    ensures forall i, j :: 0 <= i < j < |r.gaps| ==> IndexOfGap(r.gaps[i]) < IndexOfGap(r.gaps[j])
    ensures r.confidence == if TotalWeight(r.gaps) >= BaseConfidence then 0 else BaseConfidence - TotalWeight(r.gaps)
    ensures r.confidence <= BaseConfidence < Threshold
    ensures r.needsMore
  {
    var raw := RawConfidence(ctx);
    GapAnalysis(AsksForMore(reply) || raw < Threshold, GapList(ctx), if raw < 0 then 0 else raw)
  }

  /** Whether the reply, lower-cased, mentions needing more context. */
  predicate AsksForMore(reply: string) {
    var lower := ToLower(reply);
    Contains(lower, "need more") || Contains(lower, "gather") || Contains(lower, "additional")
  }

  /** The gaps, each pushed when its check fails, in the order checked. */
  function GapList(ctx: Context): (gaps: seq<Gap>)
    ensures forall g :: g in gaps <==> Lacks(ctx, g)
    ensures forall i, j :: 0 <= i < j < |gaps| ==> IndexOfGap(gaps[i]) < IndexOfGap(gaps[j])
  {
    (if Lacks(ctx, ProjectStructureGap) then [ProjectStructureGap] else [])
    + (if Lacks(ctx, RelevantFilesGap) then [RelevantFilesGap] else [])
    + (if Lacks(ctx, DependenciesGap) then [DependenciesGap] else [])
  }

  /** The confidence before clamping at zero: the base less each failed
      check's deduction. */
  function RawConfidence(ctx: Context): (c: int)
    ensures c == BaseConfidence - TotalWeight(GapList(ctx))
  {
    var a := if Lacks(ctx, ProjectStructureGap) then [ProjectStructureGap] else [];
    var b := if Lacks(ctx, RelevantFilesGap) then [RelevantFilesGap] else [];
    var c := if Lacks(ctx, DependenciesGap) then [DependenciesGap] else [];
    assert GapList(ctx) == a + b + c;
    TotalWeightAppend(a + b, c);
    TotalWeightAppend(a, b);
    BaseConfidence - (if a != [] then 2 else 0) - (if b != [] then 3 else 0) - (if c != [] then 2 else 0)
  }

  function IndexOfGap(g: Gap): nat {
    match g
    case ProjectStructureGap => 0
    case RelevantFilesGap => 1
    case DependenciesGap => 2
  }

  lemma {:induction false} TotalWeightAppend(a: seq<Gap>, b: seq<Gap>)
    ensures TotalWeight(a + b) == TotalWeight(a) + TotalWeight(b)
    decreases |a|
  {
    if |a| == 0 {
      assert a + b == b;
    } else {
      assert (a + b)[1..] == a[1..] + b;
      TotalWeightAppend(a[1..], b);
    }
  }

  /** Confidence never reaches the threshold, so the reply text never
      matters: more context is always wanted. */
  lemma AlwaysNeedsMore(reply: string, reply': string, ctx: Context)
    ensures AnalyzeContextGaps(reply, ctx) == AnalyzeContextGaps(reply', ctx)
  {
  }

  // ---------------------------------------------------------------------------
  // searchRelevantCode, searchExistingVariables, gatherAdditionalContext, mergeContext

  /** The successful results of one request per key, in order; a failed
      request is skipped. */
  function Successes(requests: seq<ToolRequest>, invoke: Invoke): (r: seq<string>)
    ensures |r| <= |requests|
    ensures (forall i :: 0 <= i < |requests| ==> invoke(requests[i]).Success?) ==>
      r == seq(|requests|, i requires 0 <= i < |requests| => invoke(requests[i]).value)
    decreases |requests|
  {
    if |requests| == 0 then []
    else
      var rest := Successes(requests[1..], invoke);
      match invoke(requests[0])
      case Success(text) => [text] + rest
      case Failure(_) => rest
  }

  /** Collecting over a concatenation collects over each part. */
  lemma {:induction false} SuccessesAppend(a: seq<ToolRequest>, b: seq<ToolRequest>, invoke: Invoke)
    ensures Successes(a + b, invoke) == Successes(a, invoke) + Successes(b, invoke)
    decreases |a|
  {
    if |a| == 0 {
      assert a + b == b;
    } else {
      assert (a + b)[0] == a[0] && (a + b)[1..] == a[1..] + b;
      SuccessesAppend(a[1..], b, invoke);
    }
  }

  /** Every request keeps its place: a reply is kept between the replies to
      the requests before it and those after it, and a failed call leaves
      nothing. */
  lemma SuccessesInPlace(a: seq<ToolRequest>, q: ToolRequest, b: seq<ToolRequest>, invoke: Invoke)
    ensures Successes(a + [q] + b, invoke)
      == Successes(a, invoke) + (if invoke(q).Success? then [invoke(q).value] else []) + Successes(b, invoke)
  {
    SuccessesAppend(a + [q], b, invoke);
    SuccessesAppend(a, [q], invoke);
    assert Successes([q], invoke) == if invoke(q).Success? then [invoke(q).value] else [] by {
      assert [q][1..] == [];
    }
  }

  /** One codebase search per term, in order. */
  function SearchRequests(terms: seq<string>): (r: seq<ToolRequest>)
    ensures |r| == |terms| && forall i :: 0 <= i < |r| ==> r[i] == SearchRequest(terms[i])
  {
    seq(|terms|, i requires 0 <= i < |terms| => SearchRequest(terms[i]))
  }

  /** One project-wide variable search per name, in order. */
  function VariableRequests(names: seq<string>): (r: seq<ToolRequest>)
    ensures |r| == |names| && forall i :: 0 <= i < |r| ==> r[i] == VariableRequest(names[i], "project_wide")
  {
    seq(|names|, i requires 0 <= i < |names| => VariableRequest(names[i], "project_wide"))
  }

  /** `searchRelevantCode(prompt)`: one codebase search per search term. */
  function SearchRelevantCode(prompt: string, invoke: Invoke): (r: seq<string>)
    ensures r == Successes(SearchRequests(ExtractSearchTerms(prompt)), invoke)
    ensures |r| <= MaxSearchTerms
    ensures (forall q: ToolRequest :: invoke(q).Success?) ==> |r| == |ExtractSearchTerms(prompt)|
  {
    var terms := ExtractSearchTerms(prompt);
    var requests := SearchRequests(terms);
    assert (forall q: ToolRequest :: invoke(q).Success?) ==> |Successes(requests, invoke)| == |requests| by {
      if forall q: ToolRequest :: invoke(q).Success? { AllSucceed(requests, invoke); }
    }
    Successes(requests, invoke)
  }

  /** `searchExistingVariables(prompt)`: one project-wide variable search
      per identifier. */
  function SearchExistingVariables(prompt: string, invoke: Invoke): (r: seq<string>)
    ensures r == Successes(VariableRequests(ExtractVariablePatterns(prompt)), invoke)
    ensures |r| <= MaxVariablePatterns
    ensures (forall q: ToolRequest :: invoke(q).Success?) ==> |r| == |ExtractVariablePatterns(prompt)|
  {
    var names := ExtractVariablePatterns(prompt);
    var requests := VariableRequests(names);
    assert (forall q: ToolRequest :: invoke(q).Success?) ==> |Successes(requests, invoke)| == |requests| by {
      if forall q: ToolRequest :: invoke(q).Success? { AllSucceed(requests, invoke); }
    }
    Successes(requests, invoke)
  }

  const DependencyNote: string := "Additional dependency analysis performed"
  const BroadQuery: string := "code implementation"

  /** One iteration of `gatherAdditionalContext`'s loop; a failed tool call
      leaves the field unset. */
  function GatherOne(acc: Additional, gap: Gap, invoke: Invoke): Additional {
    match gap
    case ProjectStructureGap =>
      (match invoke(StructureRequest("deep"))
       case Success(text) => acc.(projectStructure := Some(text))
       case Failure(_) => acc)
    case RelevantFilesGap => acc.(relevantFiles := Some(SearchRelevantCode(BroadQuery, invoke)))
    case DependenciesGap => acc.(dependencies := Some(DependencyNote))
  }

  function GatherFrom(acc: Additional, gaps: seq<Gap>, invoke: Invoke): Additional
    decreases |gaps|
  {
    if |gaps| == 0 then acc else GatherFrom(GatherOne(acc, gaps[0], invoke), gaps[1..], invoke)
  }

  /** `gatherAdditionalContext(gaps)`: each gap fills its own field; the
      variables are never gathered again. */
  function GatherAdditionalContext(gaps: seq<Gap>, invoke: Invoke): (r: Additional)
    ensures r.existingVariables.None?
    ensures r.dependencies.Some? <==> DependenciesGap in gaps
    ensures r.dependencies.Some? ==> r.dependencies.value == DependencyNote
    ensures r.relevantFiles.Some? <==> RelevantFilesGap in gaps
    ensures r.projectStructure.Some? ==> ProjectStructureGap in gaps
    ensures RelevantFilesGap in gaps ==> r.relevantFiles == Some(SearchRelevantCode(BroadQuery, invoke))
    ensures r.projectStructure.Some? <==> ProjectStructureGap in gaps && invoke(StructureRequest("deep")).Success?
    ensures r.projectStructure.Some? ==> r.projectStructure.value == invoke(StructureRequest("deep")).value
  {
    GatherFromFields(NothingAdditional, gaps, invoke);
    GatherFromFiles(NothingAdditional, gaps, invoke);
    GatherFromStructure(NothingAdditional, gaps, invoke);
    GatherFrom(NothingAdditional, gaps, invoke)
  }

  /** A relevant-files gap sets the files to the broad search's hits;
      without one they are left as they were. */
  lemma {:induction false} GatherFromFiles(acc: Additional, gaps: seq<Gap>, invoke: Invoke)
    ensures RelevantFilesGap !in gaps ==> GatherFrom(acc, gaps, invoke).relevantFiles == acc.relevantFiles
    ensures RelevantFilesGap in gaps ==>
      GatherFrom(acc, gaps, invoke).relevantFiles == Some(SearchRelevantCode(BroadQuery, invoke))
    decreases |gaps|
  {
    if |gaps| > 0 {
      GatherFromFiles(GatherOne(acc, gaps[0], invoke), gaps[1..], invoke);
      assert forall g :: g in gaps <==> g == gaps[0] || g in gaps[1..];
    }
  }

  /** A project-structure gap sets the structure to the deep listing when
      that call succeeds; otherwise it is left as it was. */
  lemma {:induction false} GatherFromStructure(acc: Additional, gaps: seq<Gap>, invoke: Invoke)
    ensures ProjectStructureGap !in gaps || invoke(StructureRequest("deep")).Failure? ==>
      GatherFrom(acc, gaps, invoke).projectStructure == acc.projectStructure
    ensures ProjectStructureGap in gaps && invoke(StructureRequest("deep")).Success? ==>
      GatherFrom(acc, gaps, invoke).projectStructure == Some(invoke(StructureRequest("deep")).value)
    decreases |gaps|
  {
    if |gaps| > 0 {
      GatherFromStructure(GatherOne(acc, gaps[0], invoke), gaps[1..], invoke);
      assert forall g :: g in gaps <==> g == gaps[0] || g in gaps[1..];
    }
  }

  lemma {:induction false} GatherFromFields(acc: Additional, gaps: seq<Gap>, invoke: Invoke)
    ensures var r := GatherFrom(acc, gaps, invoke);
      && r.existingVariables == acc.existingVariables
      && (r.dependencies.Some? <==> acc.dependencies.Some? || DependenciesGap in gaps)
      && (acc.dependencies.Some? ==> acc.dependencies.value == DependencyNote ==>
            r.dependencies.value == DependencyNote)
      && (DependenciesGap in gaps ==> r.dependencies == Some(DependencyNote))
      && (r.relevantFiles.Some? <==> acc.relevantFiles.Some? || RelevantFilesGap in gaps)
      && (r.projectStructure.Some? ==> acc.projectStructure.Some? || ProjectStructureGap in gaps)
    decreases |gaps|
  {
    if |gaps| > 0 {
      GatherFromFields(GatherOne(acc, gaps[0], invoke), gaps[1..], invoke);
      assert forall g :: g in gaps <==> g == gaps[0] || g in gaps[1..];
    }
  }

  /** `mergeContext(current, additional)`. */
  function MergeContext(current: Context, add: Additional): (r: Context)
    ensures current.relevantFiles <= r.relevantFiles && current.existingVariables <= r.existingVariables
    ensures add.relevantFiles.None? ==> r.relevantFiles == current.relevantFiles
    ensures add.relevantFiles.Some? ==> r.relevantFiles[|current.relevantFiles|..] == add.relevantFiles.value
    ensures add.existingVariables.None? ==> r.existingVariables == current.existingVariables
    ensures add.existingVariables.Some? ==> r.existingVariables[|current.existingVariables|..] == add.existingVariables.value
    ensures add.projectStructure.Some? && add.projectStructure.value != [] ==> r.projectStructure == add.projectStructure.value
    ensures r.projectStructure != current.projectStructure ==>
      add.projectStructure.Some? && add.projectStructure.value == r.projectStructure != []
    ensures add.dependencies.Some? && add.dependencies.value != [] ==> r.dependencies == add.dependencies.value
    ensures r.dependencies != current.dependencies ==>
      add.dependencies.Some? && add.dependencies.value == r.dependencies != []
    ensures r.analysis == current.analysis
  {
    Context(
      if add.projectStructure.Some? && add.projectStructure.value != [] then add.projectStructure.value
      else current.projectStructure,
      current.relevantFiles + add.relevantFiles.GetOr([]),
      current.existingVariables + add.existingVariables.GetOr([]),
      if add.dependencies.Some? && add.dependencies.value != [] then add.dependencies.value
      else current.dependencies,
      current.analysis)
  }

  /** The dependency gap, once found, is never closed: the note gathered
      for it is shorter than the bar. */
  lemma DependencyGapPersists(ctx: Context, reply: string, invoke: Invoke)
    requires Lacks(ctx, DependenciesGap)
    ensures var a := AnalyzeContextGaps(reply, ctx);
      Lacks(MergeContext(ctx, GatherAdditionalContext(a.gaps, invoke)), DependenciesGap)
  {
    assert |DependencyNote| == 40;
  }

  // ---------------------------------------------------------------------------
  // runThinkingLoop

  const MaxThinkingIterations: nat := 5

  /** What `getAIThinkingResponse` returns: the reply, or the error text. */
  function ReplyText(reply: Result<string, Thrown>): string {
    match reply
    case Success(text) => text
    case Failure(t) => "Error getting AI response: " + t.MessageOr("Unknown error")
  }

  /** The transcript entry of iteration `n` (counted from 1). */
  function IterationEntry(n: nat, text: string): string {
    "\n\n" + IterationHeader(n) + "\n" + text
  }

  function IterationHeader(n: nat): string {
    "--- Iteration " + NatToString(n) + " ---"
  }

  /** The transcript after `n` iterations, given the reply of each. */
  function Transcript(replies: nat -> Result<string, Thrown>, n: nat): string
    decreases n
  {
    if n == 0 then "" else Transcript(replies, n - 1) + IterationEntry(n, ReplyText(replies(n - 1)))
  }

  /** The context after `n` iterations. */
  function ContextAfter(ctx: Context, replies: nat -> Result<string, Thrown>, invoke: Invoke, n: nat): Context
    decreases n
  {
    if n == 0 then ctx
    else
      var before := ContextAfter(ctx, replies, invoke, n - 1);
      var a := AnalyzeContextGaps(ReplyText(replies(n - 1)), before);
      MergeContext(before, GatherAdditionalContext(a.gaps, invoke))
  }

  /** `runThinkingLoop`'s loop: it stops after five iterations, since the
      confidence it keeps is never at the threshold. */
  method ThinkingLoop(ctx0: Context, replies: nat -> Result<string, Thrown>, invoke: Invoke)
    returns (iterations: nat, transcript: string, ctx: Context)
    ensures iterations == MaxThinkingIterations
    ensures transcript == Transcript(replies, MaxThinkingIterations)
    ensures ctx == ContextAfter(ctx0, replies, invoke, MaxThinkingIterations)
  {
    iterations := 0;
    var confidence: int := 0;
    transcript := "";
    ctx := ctx0;
    while iterations < MaxThinkingIterations && confidence < Threshold
      invariant iterations <= MaxThinkingIterations
      invariant confidence <= BaseConfidence
      invariant transcript == Transcript(replies, iterations)
      invariant ctx == ContextAfter(ctx0, replies, invoke, iterations)
      decreases MaxThinkingIterations - iterations
    {
      var text := ReplyText(replies(iterations));
      var analysis := AnalyzeContextGaps(text, ctx);
      transcript := transcript + IterationEntry(iterations + 1, text);
      // With enough context the code would set confidence to 1.0 and stop.
      ctx := if analysis.needsMore then MergeContext(ctx, GatherAdditionalContext(analysis.gaps, invoke)) else ctx;
      confidence := if analysis.needsMore then analysis.confidence else 10;
      iterations := iterations + 1;
    }
  }

  /** The headers of the iterations appear in the transcript in order: the
      header of iteration `k` sits at `HeaderPosition(replies, k)`, and these
      positions increase with `k`. */
  function HeaderPosition(replies: nat -> Result<string, Thrown>, k: nat): nat
    requires k >= 1
  {
    |Transcript(replies, k - 1)| + 2
  }

  lemma {:induction false} HeadersInOrder(replies: nat -> Result<string, Thrown>, k: nat, n: nat)
    requires 1 <= k <= n
    ensures OccursAt(Transcript(replies, n), IterationHeader(k), HeaderPosition(replies, k))
    ensures k < n ==> HeaderPosition(replies, k) < HeaderPosition(replies, k + 1)
    decreases n
  {
    var before := Transcript(replies, n - 1);
    var entry := IterationEntry(n, ReplyText(replies(n - 1)));
    assert Transcript(replies, n) == before + entry;
    if k < n {
      HeadersInOrder(replies, k, n - 1);
      OccursInConcat(before, entry, IterationHeader(k), HeaderPosition(replies, k));
      if k + 1 < n {
        TranscriptGrows(replies, k + 1);
      }
    } else {
      EntryHoldsHeader(n, ReplyText(replies(n - 1)));
      OccursInConcat(before, entry, IterationHeader(n), 2);
    }
  }

  /** Each iteration lengthens the transcript. */
  lemma TranscriptGrows(replies: nat -> Result<string, Thrown>, n: nat)
    requires n >= 1
    ensures |Transcript(replies, n - 1)| < |Transcript(replies, n)|
  {
  }

  /** An iteration's entry starts with two line breaks and its header. */
  lemma EntryHoldsHeader(n: nat, text: string)
    ensures OccursAt(IterationEntry(n, text), IterationHeader(n), 2)
  {
    var h := IterationHeader(n);
    assert IterationEntry(n, text) == "\n\n" + (h + ("\n" + text));
    Sandwich("\n\n", h, "\n" + text);
  }

  // ---------------------------------------------------------------------------
  // generateFinalThinkingSummary and analyzeCodeWithContext

  const SummaryTitle: string := "# Intelligent Analysis Complete"

  /** The final summary: a template around the two list counts and the
      whole transcript; no model is called. */
  function FinalSummary(transcript: string, ctx: Context): (r: string)
    ensures StartsWith(r, SummaryTitle)
    ensures r == SummaryTitle + ContextGathered(ctx) + transcript + FinalAssessment
  {
    PrefixOfConcat(SummaryTitle, ContextGathered(ctx), transcript, FinalAssessment);
    SummaryTitle + ContextGathered(ctx) + transcript + FinalAssessment
  }

  lemma PrefixOfConcat(a: string, b: string, c: string, d: string)
    ensures StartsWith(a + b + c + d, a)
  {
    assert (a + b + c + d)[..|a|] == a;
  }

  /** The "Context Gathered" section: fixed lines around the two counts. */
  function ContextGathered(ctx: Context): string {
    GatheredHead + FilesLine(|ctx.relevantFiles|) + VariablesLine(|ctx.existingVariables|) + GatheredTail
  }

  const GatheredHead: string :=
    "\n\n## Context Gathered\n- **Project Structure**: Analyzed project organization and file types\n"

  const GatheredTail: string :=
    "- **Dependencies**: Analyzed file and project dependencies\n\n## Thinking Process\n"

  const FilesLead: string := "- **Relevant Files**: Found "
  const FilesTrail: string := " relevant files in codebase\n"
  const VariablesLead: string := "- **Existing Variables**: Identified "
  const VariablesTrail: string := " variable patterns\n"

  /** The line reporting how many relevant files were found. */
  function FilesLine(n: nat): string {
    FilesLead + NatToString(n) + FilesTrail
  }

  /** The line reporting how many variable patterns were identified. */
  function VariablesLine(n: nat): string {
    VariablesLead + NatToString(n) + VariablesTrail
  }

  /** The summary reports both counts of the final context, each on a line
      from which the count reads back. */
  lemma SummaryReportsCounts(transcript: string, ctx: Context)
    ensures Contains(FinalSummary(transcript, ctx), FilesLine(|ctx.relevantFiles|))
    ensures Contains(FinalSummary(transcript, ctx), VariablesLine(|ctx.existingVariables|))
    ensures CountIn(FilesLine(|ctx.relevantFiles|), FilesLead, FilesTrail) == |ctx.relevantFiles|
    ensures CountIn(VariablesLine(|ctx.existingVariables|), VariablesLead, VariablesTrail) == |ctx.existingVariables|
  {
    var f := FilesLine(|ctx.relevantFiles|);
    var v := VariablesLine(|ctx.existingVariables|);
    SectionLinesContained(SummaryTitle, GatheredHead, f, v, GatheredTail, transcript, FinalAssessment);
    CountReadsBack(FilesLead, |ctx.relevantFiles|, FilesTrail);
    CountReadsBack(VariablesLead, |ctx.existingVariables|, VariablesTrail);
  }

  lemma SectionLinesContained(t: string, h: string, f: string, v: string, g: string, tr: string, fa: string)
    ensures Contains(t + (h + f + v + g) + tr + fa, f) && Contains(t + (h + f + v + g) + tr + fa, v)
  {
    var rest := tr + fa;
    assert t + (h + f + v + g) + tr + fa == (t + h) + (f + (v + (g + rest)));
    ContainsMiddle(t + h, f, v + (g + rest));
    assert t + (h + f + v + g) + tr + fa == (t + h + f) + (v + (g + rest));
    ContainsMiddle(t + h + f, v, g + rest);
  }

  /** The number written between a lead and a trail, read as decimal. */
  function CountIn(line: string, lead: string, trail: string): nat
    requires |lead| + |trail| <= |line| && AllDigits(line[|lead|..|line| - |trail|])
  {
    DecimalValue(line[|lead|..|line| - |trail|])
  }

  lemma CountReadsBack(lead: string, n: nat, trail: string)
    ensures var line := lead + NatToString(n) + trail;
      && |lead| + |trail| <= |line| && AllDigits(line[|lead|..|line| - |trail|])
      && CountIn(line, lead, trail) == n
  {
    var line := lead + NatToString(n) + trail;
    assert line[|lead|..|line| - |trail|] == NatToString(n);
    NatToStringRoundTrip(n);
  }

  const FinalAssessment: string :=
    "\n\n## Final Assessment\nBased on comprehensive context gathering, I now have a complete understanding of:\n"
    + "1. The project structure and organization\n2. Existing code patterns and implementations\n"
    + "3. Variable naming conventions and usage\n4. Dependencies and imports\n\n"
    + "This context will inform the subsequent observation, approach, and planning phases to ensure accurate and non-redundant implementation."

  /** The whole transcript is quoted in the summary. */
  lemma SummaryQuotesTranscript(transcript: string, ctx: Context)
    ensures OccursAt(FinalSummary(transcript, ctx), transcript, |SummaryTitle| + |ContextGathered(ctx)|)
    ensures Contains(FinalSummary(transcript, ctx), transcript)
  {
    ThirdOfFour(SummaryTitle, ContextGathered(ctx), transcript, FinalAssessment);
  }

  lemma ThirdOfFour(a: string, b: string, c: string, d: string)
    ensures OccursAt(a + b + c + d, c, |a| + |b|) && Contains(a + b + c + d, c)
  {
    assert (a + b + c + d)[|a| + |b|..|a| + |b| + |c|] == c;
    ContainsAt(a + b + c + d, c, |a| + |b|);
  }

  /** The initial context `analyzeCodeWithContext` gathers before the loop;
      each failed tool call becomes its fixed message. */
  function InitialContext(prompt: string, fileName: string, invoke: Invoke): (r: Context)
    ensures r.analysis == [] && |r.relevantFiles| <= MaxSearchTerms && |r.existingVariables| <= MaxVariablePatterns
    ensures invoke(StructureRequest("medium")).Failure? ==> r.projectStructure == "Unable to analyze project structure"
    ensures invoke(DependencyRequest(fileName, false)).Failure? ==> r.dependencies == "Unable to analyze dependencies"
    ensures invoke(StructureRequest("medium")).Success? ==> r.projectStructure == invoke(StructureRequest("medium")).value
    ensures invoke(DependencyRequest(fileName, false)).Success? ==> r.dependencies == invoke(DependencyRequest(fileName, false)).value
    ensures r.relevantFiles == SearchRelevantCode(prompt, invoke)
    ensures r.existingVariables == SearchExistingVariables(prompt, invoke)
    ensures (forall q: ToolRequest :: invoke(q).Success?) ==>
      && r.projectStructure == invoke(StructureRequest("medium")).value
      && r.dependencies == invoke(DependencyRequest(fileName, false)).value
      && |r.relevantFiles| == |ExtractSearchTerms(prompt)|
      && |r.existingVariables| == |ExtractVariablePatterns(prompt)|
  {
    Context(
      TextOr(invoke(StructureRequest("medium")), "Unable to analyze project structure"),
      SearchRelevantCode(prompt, invoke),
      SearchExistingVariables(prompt, invoke),
      TextOr(invoke(DependencyRequest(fileName, false)), "Unable to analyze dependencies"),
      "")
  }

  /** A tool's text, or a fixed message in its place when the call failed. */
  function TextOr(result: Result<string, Thrown>, message: string): (r: string)
    ensures result.Success? ==> r == result.value
    ensures result.Failure? ==> r == message
  {
    match result
    case Success(text) => text
    case Failure(_) => message
  }

  /** Tools that never fail answer every request. */
  lemma AllSucceed(requests: seq<ToolRequest>, invoke: Invoke)
    requires forall q: ToolRequest :: invoke(q).Success?
    ensures |Successes(requests, invoke)| == |requests|
  {
    assert forall i :: 0 <= i < |requests| ==> invoke(requests[i]).Success?;
  }

  /** `analyzeCodeWithContext`: gather, think five times, summarise. */
  method AnalyzeCodeWithContext(prompt: string, fileName: string, replies: nat -> Result<string, Thrown>, invoke: Invoke)
    returns (summary: string)
    ensures var ctx0 := InitialContext(prompt, fileName, invoke);
      summary == FinalSummary(Transcript(replies, MaxThinkingIterations),
        ContextAfter(ctx0, replies, invoke, MaxThinkingIterations))
    ensures StartsWith(summary, SummaryTitle)
  {
    var ctx0 := InitialContext(prompt, fileName, invoke);
    var iterations, transcript, ctx := ThinkingLoop(ctx0, replies, invoke);
    summary := FinalSummary(transcript, ctx);
  }
}
