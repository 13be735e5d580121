/** The two workspace searches of `src/utils/Tools.ts`: the codebase search
    (a case-insensitive substring test per file, the first matching line
    with two lines of context before and two after) and the variable search
    (four patterns for the name, the first line that mentions it with one
    line of context on each side). The files `findFiles` returns, with their
    contents or the error reading them, are inputs. */
module ToolSearch {

  import opened Wrappers
  import opened Strings
  import opened FileAnalysis

  /** A file the workspace returned for a glob: its path relative to the
      workspace root, and its text or what reading it threw. */
  datatype FileEntry = FileEntry(relativePath: string, content: Result<string, Thrown>)

  /** `vscode.workspace.findFiles` for a glob, with everything under
      `node_modules` excluded: the files found, or what the call threw. */
  type FindFiles = string -> Result<seq<FileEntry>, Thrown>

  /** `items.slice(0, n)`. */
  function Take<T>(items: seq<T>, n: nat): (r: seq<T>)
    ensures |r| == if |items| <= n then |items| else n
    ensures r == items[..|r|]
  {
    if |items| <= n then items else items[..n]
  }

  // ---------------------------------------------------------------------------
  // Codebase search

  const SearchExtensions: seq<string> := [".ts", ".tsx", ".js", ".jsx", ".json", ".md", ".txt"]
  const FilesPerExtension: nat := 50
  const MaxSearchResults: nat := 20
  const NoWorkspaceForSearch: string := "No workspace folders found. Please open a project in VS Code."

  /** The case-insensitive substring test. */
  predicate MatchesQuery(text: string, query: string) {
    Contains(ToLower(text), ToLower(query))
  }

  /** A result entry: the file that matched, then the context around its
      first matching line. */
  datatype SearchHit = FileHit(path: string) | LinesHit(start: nat, end: nat, text: string)

  /** Line `i` is the first line that matches. */
  predicate FirstMatchingLine(lines: seq<string>, query: string, i: nat) {
    i < |lines| && MatchesQuery(lines[i], query)
    && forall j :: 0 <= j < i ==> !MatchesQuery(lines[j], query)
  }

  /** The entries one file contributes. */
  function FileSearchHits(f: FileEntry, query: string): (r: seq<SearchHit>)
    ensures |r| <= 2
    ensures r != [] <==> f.content.Success? && MatchesQuery(f.content.value, query)
    ensures r != [] ==> r[0] == FileHit(f.relativePath)
    ensures |r| == 1 ==> forall j :: 0 <= j < |Split(f.content.value, '\n')| ==>
      !MatchesQuery(Split(f.content.value, '\n')[j], query)
    ensures |r| == 2 ==> r[1].LinesHit?
  {
    if f.content.Failure? || !MatchesQuery(f.content.value, query) then []
    else
      var lines := Split(f.content.value, '\n');
      match FirstMatch(lines, line => MatchesQuery(line, query))
      case None => [FileHit(f.relativePath)]
      case Some(i) =>
        var w := ContextWindow(|lines|, i, 2, 3);
        [FileHit(f.relativePath), LinesHit(w.start, w.end, Join(lines[w.start..w.end], " | "))]
  }

  /** When a line of a matching file matches, the second entry is the window
      `[max(0, i - 2), min(n, i + 3))` around the first such line `i`, its
      lines joined with " | ". */
  lemma SearchWindow(f: FileEntry, query: string, i: nat)
    requires f.content.Success?
    requires FirstMatchingLine(Split(f.content.value, '\n'), query, i)
    ensures var lines := Split(f.content.value, '\n');
      var start := if i >= 2 then i - 2 else 0;
      var end := if i + 3 <= |lines| then i + 3 else |lines|;
      FileSearchHits(f, query) == [FileHit(f.relativePath), LinesHit(start, end, Join(lines[start..end], " | "))]
  {
    var lines := Split(f.content.value, '\n');
    assert MatchesQuery(f.content.value, query) by {
      JoinSplit(f.content.value, '\n');
      LineMatchMeansTextMatch(lines, i, query);
    }
    var m := FirstMatch(lines, line => MatchesQuery(line, query));
    assert m == Some(i);
  }

  /** A line that matches makes the joined text match. */
  lemma LineMatchMeansTextMatch(lines: seq<string>, i: nat, query: string)
    requires i < |lines| && MatchesQuery(lines[i], query)
    ensures MatchesQuery(Join(lines, "\n"), query)
  {
    var pre, post := JoinAround(lines, i, "\n");
    ToLowerConcat(pre, lines[i], post);
    ContainsInConcat(ToLower(pre), ToLower(lines[i]), ToLower(query));
    ContainsInConcat(ToLower(pre) + ToLower(lines[i]), ToLower(post), ToLower(query));
  }

  /** Every part of a join stands between a prefix and a suffix. */
  lemma {:induction false} JoinAround(parts: seq<string>, i: nat, sep: string) returns (pre: string, post: string)
    requires i < |parts|
    ensures Join(parts, sep) == pre + parts[i] + post
    decreases |parts|
  {
    if |parts| == 1 {
      pre, post := "", "";
    } else if i == 0 {
      pre, post := "", sep + Join(parts[1..], sep);
    } else {
      var p, q := JoinAround(parts[1..], i - 1, sep);
      pre, post := parts[0] + sep + p, q;
    }
  }

  lemma ToLowerConcat(a: string, b: string, c: string)
    ensures ToLower(a + b + c) == ToLower(a) + ToLower(b) + ToLower(c)
  {
    assert forall k :: 0 <= k < |a + b + c| ==> ToLower(a + b + c)[k] == LowerChar((a + b + c)[k]);
  }

  /** The entries of the files, in order. */
  function HitsOf(files: seq<FileEntry>, query: string): (r: seq<SearchHit>)
    ensures |r| <= 2 * |files|
    decreases |files|
  {
    if |files| == 0 then [] else FileSearchHits(files[0], query) + HitsOf(files[1..], query)
  }

  /** The entries of two runs of files are those of each, in order. */
  lemma {:induction false} HitsOfAppend(a: seq<FileEntry>, b: seq<FileEntry>, query: string)
    ensures HitsOf(a + b, query) == HitsOf(a, query) + HitsOf(b, query)
    decreases |a|
  {
    if |a| > 0 {
      assert (a + b)[1..] == a[1..] + b;
      HitsOfAppend(a[1..], b, query);
    } else {
      assert a + b == b;
    }
  }

  /** The glob that finds the files of one extension. */
  function ExtensionGlob(ext: string): string {
    "**/*" + ext
  }

  /** The entries over the extensions in order, from the first 50 files of
      each; the first `findFiles` that throws ends the search with its
      error. */
  function ExtensionHits(find: FindFiles, extensions: seq<string>, query: string): Result<seq<SearchHit>, Thrown>
    decreases |extensions|
  {
    if |extensions| == 0 then Success([])
    else
      match find(ExtensionGlob(extensions[0]))
      case Failure(t) => Failure(t)
      case Success(files) =>
        match ExtensionHits(find, extensions[1..], query)
        case Failure(t) => Failure(t)
        case Success(rest) => Success(HitsOf(Take(files, FilesPerExtension), query) + rest)
  }

  /** The files the codebase search reads: the first 50 found for each
      extension, extension after extension, or the error of the first
      `findFiles` that threw. */
  function ReadFiles(find: FindFiles, extensions: seq<string>): Result<seq<FileEntry>, Thrown>
    decreases |extensions|
  {
    if |extensions| == 0 then Success([])
    else
      match find(ExtensionGlob(extensions[0]))
      case Failure(t) => Failure(t)
      case Success(files) =>
        match ReadFiles(find, extensions[1..])
        case Failure(t) => Failure(t)
        case Success(rest) => Success(Take(files, FilesPerExtension) + rest)
  }

  /** Extension `i` is the first whose `findFiles` threw. */
  predicate FirstFailedGlob(find: FindFiles, extensions: seq<string>, i: nat) {
    i < |extensions| && find(ExtensionGlob(extensions[i])).Failure?
    && forall j :: 0 <= j < i ==> find(ExtensionGlob(extensions[j])).Success?
  }

  /** The search reads its files exactly when every `findFiles` succeeds;
      otherwise it fails with the error of the first one that threw. */
  lemma {:induction false} ReadFilesOutcome(find: FindFiles, extensions: seq<string>)
    ensures ReadFiles(find, extensions).Success?
      <==> forall i :: 0 <= i < |extensions| ==> find(ExtensionGlob(extensions[i])).Success?
    ensures ReadFiles(find, extensions).Failure? ==> exists i: nat ::
      FirstFailedGlob(find, extensions, i) && ReadFiles(find, extensions).error == find(ExtensionGlob(extensions[i])).error
    decreases |extensions|
  {
    if |extensions| > 0 {
      var tail := extensions[1..];
      ReadFilesOutcome(find, tail);
      assert forall i :: 0 <= i < |tail| ==> tail[i] == extensions[i + 1];
      if find(ExtensionGlob(extensions[0])).Failure? {
        assert FirstFailedGlob(find, extensions, 0);
      } else if ReadFiles(find, tail).Failure? {
        var i: nat :| FirstFailedGlob(find, tail, i) && ReadFiles(find, tail).error == find(ExtensionGlob(tail[i])).error;
        assert FirstFailedGlob(find, extensions, i + 1) by {
          forall j | 0 <= j < i + 1 ensures find(ExtensionGlob(extensions[j])).Success? {
            if j > 0 { assert extensions[j] == tail[j - 1]; }
          }
        }
      } else {
        forall i | 0 <= i < |extensions| ensures find(ExtensionGlob(extensions[i])).Success? {
          if i > 0 { assert extensions[i] == tail[i - 1]; }
        }
      }
    }
  }

  /** Only one extension is the first to fail. */
  lemma FirstFailedGlobUnique(find: FindFiles, extensions: seq<string>, i: nat, j: nat)
    requires FirstFailedGlob(find, extensions, i) && FirstFailedGlob(find, extensions, j)
    ensures i == j
  {
  }

  /** The files read over two runs of extensions are those of each, in
      order. */
  lemma {:induction false} ReadFilesAppend(find: FindFiles, a: seq<string>, b: seq<string>)
    requires ReadFiles(find, a).Success? && ReadFiles(find, b).Success?
    ensures ReadFiles(find, a + b) == Success(ReadFiles(find, a).value + ReadFiles(find, b).value)
    decreases |a|
  {
    if |a| > 0 {
      assert (a + b)[0] == a[0] && (a + b)[1..] == a[1..] + b;
      ReadFilesAppend(find, a[1..], b);
      var files := find(ExtensionGlob(a[0])).value;
      ConcatAssoc(Take(files, FilesPerExtension), ReadFiles(find, a[1..]).value, ReadFiles(find, b).value);
    } else {
      assert a + b == b;
      assert ReadFiles(find, a).value == [];
      assert ReadFiles(find, a).value + ReadFiles(find, b).value == ReadFiles(find, b).value;
    }
  }

  /** For one extension, the search reads the first 50 files found. */
  lemma ReadFilesOne(find: FindFiles, ext: string)
    requires find(ExtensionGlob(ext)).Success?
    ensures ReadFiles(find, [ext]) == Success(Take(find(ExtensionGlob(ext)).value, FilesPerExtension))
  {
    assert [ext][1..] == [];
    var files := find(ExtensionGlob(ext)).value;
    assert ReadFiles(find, [ext][1..]) == Success([]);
    assert Take(files, FilesPerExtension) + [] == Take(files, FilesPerExtension);
  }

  lemma ConcatAssoc<T>(a: seq<T>, b: seq<T>, c: seq<T>)
    ensures a + (b + c) == a + b + c
  {
  }

  /** Every file among the first 50 of an extension is read. */
  lemma {:induction false} ReadFileAt(find: FindFiles, extensions: seq<string>, i: nat, k: nat) returns (m: nat)
    requires forall j :: 0 <= j < |extensions| ==> find(ExtensionGlob(extensions[j])).Success?
    requires i < |extensions| && k < FilesPerExtension && k < |find(ExtensionGlob(extensions[i])).value|
    ensures var r := ReadFiles(find, extensions);
      r.Success? && m < |r.value| && r.value[m] == find(ExtensionGlob(extensions[i])).value[k]
    decreases |extensions|
  {
    var tail := extensions[1..];
    ReadFilesOutcome(find, extensions);
    ReadFilesOutcome(find, tail);
    var own := Take(find(ExtensionGlob(extensions[0])).value, FilesPerExtension);
    if i == 0 {
      m := k;
    } else {
      assert extensions[i] == tail[i - 1];
      var m' := ReadFileAt(find, tail, i - 1, k);
      m := |own| + m';
    }
  }

  /** Every file read is among the first 50 of some extension. */
  lemma {:induction false} ReadFileSource(find: FindFiles, extensions: seq<string>, m: nat) returns (i: nat, k: nat)
    requires ReadFiles(find, extensions).Success? && m < |ReadFiles(find, extensions).value|
    ensures i < |extensions| && find(ExtensionGlob(extensions[i])).Success?
    ensures k < FilesPerExtension && k < |find(ExtensionGlob(extensions[i])).value|
    ensures ReadFiles(find, extensions).value[m] == find(ExtensionGlob(extensions[i])).value[k]
    decreases |extensions|
  {
    var tail := extensions[1..];
    var own := Take(find(ExtensionGlob(extensions[0])).value, FilesPerExtension);
    if m < |own| {
      i, k := 0, m;
    } else {
      var i', k' := ReadFileSource(find, tail, m - |own|);
      i, k := i' + 1, k';
      assert extensions[i] == tail[i'];
    }
  }

  /** The per-extension entries are the entries of the files read, and the
      search fails exactly when reading does. */
  lemma {:induction false} ExtensionHitsOfReadFiles(find: FindFiles, extensions: seq<string>, query: string)
    ensures ExtensionHits(find, extensions, query) ==
      match ReadFiles(find, extensions)
      case Failure(t) => Failure(t)
      case Success(files) => Success(HitsOf(files, query))
    decreases |extensions|
  {
    if |extensions| > 0 {
      ExtensionHitsOfReadFiles(find, extensions[1..], query);
      match find(ExtensionGlob(extensions[0]))
      case Failure(_) =>
      case Success(files) =>
        match ReadFiles(find, extensions[1..])
        case Failure(_) =>
        case Success(rest) =>
          HitsOfAppend(Take(files, FilesPerExtension), rest, query);
    }
  }

  /** A readable file whose text matches is reported. */
  lemma {:induction false} FileReported(files: seq<FileEntry>, query: string, k: nat)
    requires k < |files| && files[k].content.Success? && MatchesQuery(files[k].content.value, query)
    ensures FileHit(files[k].relativePath) in HitsOf(files, query)
    decreases |files|
  {
    if k > 0 {
      FileReported(files[1..], query, k - 1);
    } else {
      assert FileSearchHits(files[0], query)[0] == FileHit(files[0].relativePath);
    }
  }

  /** Every reported file is a readable file whose text matches. */
  lemma {:induction false} FileHitSource(files: seq<FileEntry>, query: string, path: string) returns (k: nat)
    requires FileHit(path) in HitsOf(files, query)
    ensures k < |files| && files[k].relativePath == path
    ensures files[k].content.Success? && MatchesQuery(files[k].content.value, query)
    decreases |files|
  {
    var own := FileSearchHits(files[0], query);
    if FileHit(path) in own {
      k := 0;
    } else {
      assert FileHit(path) in HitsOf(files[1..], query);
      var j := FileHitSource(files[1..], query, path);
      k := j + 1;
    }
  }

  /** A matching file past the 50th of its extension is never read. */
  lemma PastFiftyUnread(files: seq<FileEntry>, query: string, k: nat, replacement: FileEntry)
    requires FilesPerExtension <= k < |files|
    ensures HitsOf(Take(files[k := replacement], FilesPerExtension), query)
      == HitsOf(Take(files, FilesPerExtension), query)
  {
    assert Take(files[k := replacement], FilesPerExtension) == Take(files, FilesPerExtension);
  }

  function SearchHeader(query: string): string {
    "Search results for \"" + query + "\":\n"
  }

  function NoSearchResults(query: string): string {
    "No files found containing \"" + query + "\". Try a different search term or check if the project structure is correct."
  }

  function RenderSearchHit(h: SearchHit): string {
    match h
    case FileHit(path) => "Found in " + path
    case LinesHit(start, end, text) => "  Lines " + NatToString(start + 1) + "-" + NatToString(end) + ": " + text
  }

  function RenderSearchHits(hits: seq<SearchHit>): (r: seq<string>)
    ensures |r| == |hits|
    ensures forall i :: 0 <= i < |hits| ==> r[i] == RenderSearchHit(hits[i])
    decreases |hits|
  {
    if |hits| == 0 then [] else [RenderSearchHit(hits[0])] + RenderSearchHits(hits[1..])
  }

  /** The report over the collected entries: the first 20, one per line. */
  function SearchReport(query: string, hits: seq<SearchHit>): (r: string)
    ensures hits == [] ==> r == NoSearchResults(query)
    ensures hits != [] ==> StartsWith(r, SearchHeader(query))
  {
    if hits == [] then NoSearchResults(query)
    else SearchHeader(query) + Join(RenderSearchHits(Take(hits, MaxSearchResults)), "\n")
  }

  function SearchError(t: Thrown): string {
    "Error searching codebase: " + t.MessageOr("Unknown error")
  }

  /** `codebase_search`: the report over the files read for all seven
      extensions, or the error of the first `findFiles` that threw. */
  function CodebaseSearch(workspaceOpen: bool, find: FindFiles, query: string): (r: string)
    ensures !workspaceOpen ==> r == NoWorkspaceForSearch
    ensures workspaceOpen && ReadFiles(find, SearchExtensions).Failure? ==>
      r == SearchError(ReadFiles(find, SearchExtensions).error)
    ensures workspaceOpen && ReadFiles(find, SearchExtensions).Success? ==>
      r == SearchReport(query, HitsOf(ReadFiles(find, SearchExtensions).value, query))
  {
    if !workspaceOpen then NoWorkspaceForSearch
    else
      ExtensionHitsOfReadFiles(find, SearchExtensions, query);
      match ExtensionHits(find, SearchExtensions, query)
      case Failure(t) => SearchError(t)
      case Success(hits) => SearchReport(query, hits)
  }

  /** When a `findFiles` throws, the report is the error of the first one
      that did, whatever the other extensions would have found. */
  lemma CodebaseSearchFails(find: FindFiles, query: string, i: nat)
    requires FirstFailedGlob(find, SearchExtensions, i)
    ensures CodebaseSearch(true, find, query) == SearchError(find(ExtensionGlob(SearchExtensions[i])).error)
  {
    ReadFilesOutcome(find, SearchExtensions);
    var j: nat :| FirstFailedGlob(find, SearchExtensions, j)
      && ReadFiles(find, SearchExtensions).error == find(ExtensionGlob(SearchExtensions[j])).error;
    FirstFailedGlobUnique(find, SearchExtensions, i, j);
  }

  /** A readable matching file among the first 50 of its extension is read
      at some position `m`; when fewer than 20 entries come from the files
      read before it, the report names it. */
  lemma CodebaseSearchFindsFile(find: FindFiles, query: string, i: nat, k: nat) returns (m: nat)
    requires forall j :: 0 <= j < |SearchExtensions| ==> find(ExtensionGlob(SearchExtensions[j])).Success?
    requires i < |SearchExtensions| && k < FilesPerExtension && k < |find(ExtensionGlob(SearchExtensions[i])).value|
    requires var f := find(ExtensionGlob(SearchExtensions[i])).value[k];
      f.content.Success? && MatchesQuery(f.content.value, query)
    ensures var r := ReadFiles(find, SearchExtensions);
      var f := find(ExtensionGlob(SearchExtensions[i])).value[k];
      && r.Success? && m < |r.value| && r.value[m] == f
      && (|HitsOf(r.value[..m], query)| < MaxSearchResults ==>
            Contains(CodebaseSearch(true, find, query), "Found in " + f.relativePath))
  {
    m := ReadFileAt(find, SearchExtensions, i, k);
    var read := ReadFiles(find, SearchExtensions).value;
    var f := read[m];
    var n := |HitsOf(read[..m], query)|;
    if n < MaxSearchResults {
      HitAfterEarlierFiles(read, m, query);
      ReportShowsKeptHit(query, HitsOf(read, query), n);
    }
  }

  /** The entry of a matching file comes right after the entries of the
      files before it. */
  lemma HitAfterEarlierFiles(files: seq<FileEntry>, m: nat, query: string)
    requires m < |files| && files[m].content.Success? && MatchesQuery(files[m].content.value, query)
    ensures |HitsOf(files[..m], query)| < |HitsOf(files, query)|
    ensures HitsOf(files, query)[|HitsOf(files[..m], query)|] == FileHit(files[m].relativePath)
  {
    var f := files[m];
    var rest := [f] + files[m + 1..];
    assert files == files[..m] + rest;
    HitsOfAppend(files[..m], rest, query);
    assert HitsOf(rest, query) == FileSearchHits(f, query) + HitsOf(files[m + 1..], query) by {
      assert rest[1..] == files[m + 1..];
    }
  }

  /** Each of the first 20 entries appears in the report as its own line. */
  lemma ReportShowsKeptHit(query: string, hits: seq<SearchHit>, n: nat)
    requires n < |hits| && n < MaxSearchResults
    ensures Contains(SearchReport(query, hits), RenderSearchHit(hits[n]))
  {
    var kept := Take(hits, MaxSearchResults);
    assert kept[n] == hits[n];
    var rendered := RenderSearchHits(kept);
    HeadedPartShown(SearchHeader(query), rendered, n, "\n");
  }

  /** Each part of a join occurs in it, after any header. */
  lemma HeadedPartShown(header: string, parts: seq<string>, i: nat, sep: string)
    requires i < |parts|
    ensures Contains(header + Join(parts, sep), parts[i])
  {
    var pre, post := JoinAround(parts, i, sep);
    assert header + Join(parts, sep) == (header + pre) + (parts[i] + post);
    ContainsMiddle(header + pre, parts[i], post);
  }

  /** Every file the report names is a readable matching file among the
      first 50 of some extension. */
  lemma CodebaseSearchHitSource(find: FindFiles, query: string, path: string) returns (i: nat, k: nat)
    requires ReadFiles(find, SearchExtensions).Success?
    requires FileHit(path) in Take(HitsOf(ReadFiles(find, SearchExtensions).value, query), MaxSearchResults)
    ensures i < |SearchExtensions| && find(ExtensionGlob(SearchExtensions[i])).Success?
    ensures k < FilesPerExtension && k < |find(ExtensionGlob(SearchExtensions[i])).value|
    ensures var f := find(ExtensionGlob(SearchExtensions[i])).value[k];
      f.relativePath == path && f.content.Success? && MatchesQuery(f.content.value, query)
  {
    var read := ReadFiles(find, SearchExtensions).value;
    var hits := HitsOf(read, query);
    var kept := Take(hits, MaxSearchResults);
    var n :| 0 <= n < |kept| && kept[n] == FileHit(path);
    assert hits[n] == FileHit(path);
    var m := FileHitSource(read, query, path);
    i, k := ReadFileSource(find, SearchExtensions, m);
  }

  /** When no entry spans a line break, the report body splits back into
      exactly the first `min(20, n)` entries. */
  lemma SearchReportLines(query: string, hits: seq<SearchHit>)
    requires hits != []
    requires forall i :: 0 <= i < |hits| ==> '\n' !in RenderSearchHit(hits[i])
    ensures var r := SearchReport(query, hits);
      var kept := Take(hits, MaxSearchResults);
      Split(r[|SearchHeader(query)|..], '\n') == RenderSearchHits(kept)
      && |Split(r[|SearchHeader(query)|..], '\n')| == (if |hits| <= 20 then |hits| else 20)
  {
    var kept := Take(hits, MaxSearchResults);
    var rendered := RenderSearchHits(kept);
    assert NoneContains(rendered, '\n') by {
      forall i | 0 <= i < |rendered| ensures '\n' !in rendered[i] {
        assert kept[i] == hits[i];
      }
    }
    SplitJoin(rendered, '\n');
    assert [('\n')] == "\n";
  }

  // ---------------------------------------------------------------------------
  // Variable search

  const MaxVariableFiles: nat := 100
  const MaxVariableResults: nat := 15
  const NoWorkspace: string := "No workspace folders found."

  /** The glob for a search scope: only "specific_directory" narrows the
      search to `src`; "current_file" searches everything as well. */
  function ScopePattern(scope: string): (r: string)
    ensures r == "src/**/*" <==> scope == "specific_directory"
    ensures r != "src/**/*" ==> r == "**/*"
  {
    if scope == "specific_directory" then "src/**/*" else "**/*"
  }

  /** Regex `\b` at position `i`: a word character on exactly one side. */
  predicate IsBoundary(s: string, i: nat)
    requires i <= |s|
  {
    (i > 0 && IsWordChar(s[i - 1])) != (i < |s| && IsWordChar(s[i]))
  }

  /** `(?:const|let|var)\s+NAME\b` matching at `i`; `\s+` may give back
      whitespace when the name itself starts with some. */
  predicate DeclaredAt(s: string, name: string, i: nat) {
    var k := KeywordAt(s, i);
    k > 0
    && exists j :: i + k < j <= SkipSpaces(s, i + k) && OccursAt(s, name, j) && IsBoundary(s, j + |name|)
  }

  /** `\bNAME\b` matching at `i`. */
  predicate WholeWordAt(s: string, name: string, i: nat) {
    OccursAt(s, name, i) && IsBoundary(s, i) && IsBoundary(s, i + |name|)
  }

  /** `"NAME"` or `'NAME'` matching at `i`. */
  predicate QuotedNameAt(s: string, name: string, i: nat) {
    OccursAt(s, "\"" + name + "\"", i) || OccursAt(s, "'" + name + "'", i)
  }

  /** One of the four patterns finds the name in the text. The name is put
      into the patterns unescaped; it is read here as literal text. */
  predicate VariableMentioned(text: string, name: string) {
    exists i :: 0 <= i <= |text| && (DeclaredAt(text, name, i) || WholeWordAt(text, name, i) || QuotedNameAt(text, name, i))
  }

  /** A file the patterns accept contains the name. */
  lemma MentionedContains(text: string, name: string)
    requires VariableMentioned(text, name)
    ensures Contains(text, name)
  {
    var i :| 0 <= i <= |text| && (DeclaredAt(text, name, i) || WholeWordAt(text, name, i) || QuotedNameAt(text, name, i));
    if DeclaredAt(text, name, i) {
      var j :| i + KeywordAt(text, i) < j <= SkipSpaces(text, i + KeywordAt(text, i))
        && OccursAt(text, name, j) && IsBoundary(text, j + |name|);
      ContainsAt(text, name, j);
    } else if WholeWordAt(text, name, i) {
      ContainsAt(text, name, i);
    } else {
      QuotedContains(text, name, i);
    }
  }

  lemma QuotedContains(text: string, name: string, i: nat)
    requires QuotedNameAt(text, name, i)
    ensures OccursAt(text, name, i + 1)
    ensures Contains(text, name)
  {
    var n := |name|;
    var q := if OccursAt(text, "\"" + name + "\"", i) then "\"" + name + "\"" else "'" + name + "'";
    assert |q| == n + 2 && q[1..1 + n] == name;
    assert text[i..i + n + 2] == q;
    forall k | 0 <= k < n ensures text[i + 1 + k] == name[k] {
      assert text[i + 1 + k] == text[i..i + n + 2][1 + k];
    }
    assert text[i + 1..i + 1 + n] == name;
    ContainsAt(text, name, i + 1);
  }

  /** For a name made of word characters, the four patterns together find
      exactly the whole-word occurrences: the declaration and quoted forms
      are whole words too. */
  lemma MentionedIffWholeWord(text: string, name: string)
    requires name != [] && AllWordChars(name)
    ensures VariableMentioned(text, name) <==> exists i :: 0 <= i <= |text| && WholeWordAt(text, name, i)
  {
    if VariableMentioned(text, name) {
      var i :| 0 <= i <= |text| && (DeclaredAt(text, name, i) || WholeWordAt(text, name, i) || QuotedNameAt(text, name, i));
      if DeclaredAt(text, name, i) {
        var j := DeclaredIsWholeWord(text, name, i);
      } else if QuotedNameAt(text, name, i) {
        QuotedIsWholeWord(text, name, i);
      }
    }
  }

  /** The name of a declaration, preceded by whitespace, is a whole word. */
  lemma DeclaredIsWholeWord(text: string, name: string, i: nat) returns (j: nat)
    requires name != [] && AllWordChars(name)
    requires DeclaredAt(text, name, i)
    ensures j <= |text| && WholeWordAt(text, name, j)
  {
    var k := KeywordAt(text, i);
    j :| i + k < j <= SkipSpaces(text, i + k) && OccursAt(text, name, j) && IsBoundary(text, j + |name|);
    assert IsSpace(text[j - 1]);
    assert text[j..j + |name|][0] == name[0];
  }

  lemma QuotedIsWholeWord(text: string, name: string, i: nat)
    requires name != [] && AllWordChars(name)
    requires QuotedNameAt(text, name, i)
    ensures WholeWordAt(text, name, i + 1)
  {
    var n := |name|;
    QuotedContains(text, name, i);
    var q := if OccursAt(text, "\"" + name + "\"", i) then "\"" + name + "\"" else "'" + name + "'";
    assert |q| == n + 2 && !IsWordChar(q[0]) && !IsWordChar(q[n + 1]);
    assert text[i..i + n + 2] == q;
    assert text[i] == q[0] && text[i + n + 1] == q[n + 1];
    assert text[i + 1] == name[0] && text[i + n] == name[n - 1] by {
      assert text[i + 1..i + 1 + n] == name;
    }
  }

  /** A file where the name was found: the first line containing it and the
      lines `[max(0, i - 1), min(n, i + 2))` around it. */
  datatype VariableHit = VariableHit(path: string, line: nat, context: seq<string>)

  /** The entry one file contributes, if any. */
  function VariableEntry(f: FileEntry, name: string): (r: Option<VariableHit>)
    ensures r.Some? ==> f.content.Success? && VariableMentioned(f.content.value, name)
    ensures r.Some? ==> r.value.path == f.relativePath
    ensures r.Some? ==> var lines := Split(f.content.value, '\n');
      r.value.line < |lines| && Contains(lines[r.value.line], name)
      && (forall j :: 0 <= j < r.value.line ==> !Contains(lines[j], name))
      && r.value.context == lines[(if r.value.line >= 1 then r.value.line - 1 else 0)
                                  ..(if r.value.line + 2 <= |lines| then r.value.line + 2 else |lines|)]
    ensures r.None? && f.content.Success? && VariableMentioned(f.content.value, name) ==>
      forall j :: 0 <= j < |Split(f.content.value, '\n')| ==> !Contains(Split(f.content.value, '\n')[j], name)
  {
    if f.content.Failure? || !VariableMentioned(f.content.value, name) then None
    else
      var lines := Split(f.content.value, '\n');
      match FirstMatch(lines, line => Contains(line, name))
      case None => None
      case Some(i) =>
        var w := ContextWindow(|lines|, i, 1, 2);
        Some(VariableHit(f.relativePath, i, lines[w.start..w.end]))
  }

  /** The entries of the files, in order, at most one per file. */
  function VariableHits(files: seq<FileEntry>, name: string): (r: seq<VariableHit>)
    ensures |r| <= |files|
    decreases |files|
  {
    if |files| == 0 then []
    else OwnHit(files[0], name) + VariableHits(files[1..], name)
  }

  /** The entry of one file, if it has one, as a list. */
  function OwnHit(f: FileEntry, name: string): (r: seq<VariableHit>)
    ensures |r| <= 1 && (r != [] <==> VariableEntry(f, name).Some?)
    ensures r != [] ==> r[0] == VariableEntry(f, name).value
  {
    match VariableEntry(f, name) case Some(h) => [h] case None => []
  }

  /** Every entry comes from a file that mentions the name, and names its
      path. */
  lemma VariableHitSource(files: seq<FileEntry>, name: string, i: nat) returns (k: nat)
    requires i < |VariableHits(files, name)|
    ensures k < |files| && VariableEntry(files[k], name) == Some(VariableHits(files, name)[i])
  {
    k := HitOwner(files, name, VariableHits(files, name)[i]);
  }

  /** A file whose entry is the given one. */
  lemma {:induction false} HitOwner(files: seq<FileEntry>, name: string, h: VariableHit) returns (k: nat)
    requires h in VariableHits(files, name)
    ensures k < |files| && VariableEntry(files[k], name) == Some(h)
    decreases |files|
  {
    if h in OwnHit(files[0], name) {
      k := 0;
    } else {
      assert h in VariableHits(files[1..], name);
      var j := HitOwner(files[1..], name, h);
      k := j + 1;
    }
  }

  /** Every file with an entry is reported. */
  lemma {:induction false} VariableFileReported(files: seq<FileEntry>, name: string, k: nat)
    requires k < |files| && VariableEntry(files[k], name).Some?
    ensures VariableEntry(files[k], name).value in VariableHits(files, name)
    decreases |files|
  {
    if k > 0 {
      VariableFileReported(files[1..], name, k - 1);
    }
  }

  /** The line that names an entry's file and its one-based line number. */
  function VariableLocation(h: VariableHit): string {
    "Found in " + h.path + ":" + NatToString(h.line + 1)
  }

  function RenderVariableHit(h: VariableHit): string {
    VariableLocation(h) + "\n  " + Join(h.context, "\n  ")
  }

  function RenderVariableHits(hits: seq<VariableHit>): (r: seq<string>)
    ensures |r| == |hits|
    ensures forall i :: 0 <= i < |hits| ==> r[i] == RenderVariableHit(hits[i])
    decreases |hits|
  {
    if |hits| == 0 then [] else [RenderVariableHit(hits[0])] + RenderVariableHits(hits[1..])
  }

  function VariableNotFound(name: string): string {
    "Variable \"" + name + "\" not found in the specified scope."
  }

  function VariableHeader(name: string): string {
    "Variable \"" + name + "\" found in:\n"
  }

  function VariableSearchError(t: Thrown): string {
    "Error searching for variable: " + t.MessageOr("Unknown error")
  }

  /** `variable_search`: the first 15 entries over the first 100 files of
      the scope. */
  function VariableSearch(workspaceOpen: bool, find: FindFiles, name: string, scope: string): (r: string)
    ensures !workspaceOpen ==> r == NoWorkspace
    ensures workspaceOpen && find(ScopePattern(scope)).Failure? ==>
      r == VariableSearchError(find(ScopePattern(scope)).error)
    ensures workspaceOpen && find(ScopePattern(scope)).Success? ==>
      var hits := VariableHits(Take(find(ScopePattern(scope)).value, MaxVariableFiles), name);
      (hits == [] ==> r == VariableNotFound(name))
      && (hits != [] ==> StartsWith(r, VariableHeader(name)))
  {
    if !workspaceOpen then NoWorkspace
    else
      match find(ScopePattern(scope))
      case Failure(t) => VariableSearchError(t)
      case Success(files) =>
        var hits := VariableHits(Take(files, MaxVariableFiles), name);
        if hits == [] then VariableNotFound(name)
        else
          var shown := RenderVariableHits(Take(hits, MaxVariableResults));
          VariableHeader(name) + Join(shown, "\n\n")
  }

  /** The report shows the first entry in full and ends with the last entry
      kept, the 15th at most. */
  lemma VariableReportEnds(workspaceOpen: bool, find: FindFiles, name: string, scope: string)
    requires workspaceOpen && find(ScopePattern(scope)).Success?
    requires VariableHits(Take(find(ScopePattern(scope)).value, MaxVariableFiles), name) != []
    ensures var hits := VariableHits(Take(find(ScopePattern(scope)).value, MaxVariableFiles), name);
      var last := if |hits| <= 15 then |hits| - 1 else 14;
      var r := VariableSearch(workspaceOpen, find, name, scope);
      StartsWith(r, VariableHeader(name) + RenderVariableHit(hits[0]))
      && EndsWith(r, RenderVariableHit(hits[last]))
  {
    var hits := VariableHits(Take(find(ScopePattern(scope)).value, MaxVariableFiles), name);
    var shown := RenderVariableHits(Take(hits, MaxVariableResults));
    HeadedJoin(VariableHeader(name), shown, "\n\n");
  }

  /** Each of the first fifteen entries appears in the report in full. */
  lemma VariableReportShowsHit(workspaceOpen: bool, find: FindFiles, name: string, scope: string, n: nat)
    requires workspaceOpen && find(ScopePattern(scope)).Success?
    requires n < |VariableHits(Take(find(ScopePattern(scope)).value, MaxVariableFiles), name)|
    requires n < MaxVariableResults
    ensures var hits := VariableHits(Take(find(ScopePattern(scope)).value, MaxVariableFiles), name);
      Contains(VariableSearch(workspaceOpen, find, name, scope), RenderVariableHit(hits[n]))
  {
    var hits := VariableHits(Take(find(ScopePattern(scope)).value, MaxVariableFiles), name);
    var kept := Take(hits, MaxVariableResults);
    assert kept[n] == hits[n];
    HeadedPartShown(VariableHeader(name), RenderVariableHits(kept), n, "\n\n");
  }

  /** The lines one entry prints: its location, then each context line
      indented by two spaces. */
  function EntryLines(h: VariableHit): seq<string> {
    [VariableLocation(h)] + Prefixed(h.context, "  ")
  }

  /** The lines of a list of entries: each entry's lines, with one blank
      line between consecutive entries. */
  function ReportLines(hits: seq<VariableHit>): (r: seq<string>)
    ensures hits != [] ==> |r| >= 1
    decreases |hits|
  {
    if |hits| == 0 then []
    else if |hits| == 1 then EntryLines(hits[0])
    else EntryLines(hits[0]) + [""] + ReportLines(hits[1..])
  }

  /** An entry with context is printed as its lines joined by line breaks. */
  lemma EntryRendersLines(h: VariableHit)
    requires |h.context| >= 1
    ensures RenderVariableHit(h) == Join(EntryLines(h), "\n")
  {
    calc {
      Join(EntryLines(h), "\n");
      { JoinCons(VariableLocation(h), Prefixed(h.context, "  "), "\n"); }
      VariableLocation(h) + "\n" + Join(Prefixed(h.context, "  "), "\n");
      { PrefixedJoin(h.context, "  ", "\n"); }
      VariableLocation(h) + "\n" + ("  " + Join(h.context, "\n" + "  "));
      { assert "\n" + "  " == "\n  "; }
      RenderVariableHit(h);
    }
  }

  /** Entries joined by blank lines are their report lines joined by line
      breaks. */
  lemma {:induction false} ReportJoinLines(hits: seq<VariableHit>)
    requires hits != []
    requires forall i :: 0 <= i < |hits| ==> |hits[i].context| >= 1
    ensures Join(RenderVariableHits(hits), "\n\n") == Join(ReportLines(hits), "\n")
    decreases |hits|
  {
    EntryRendersLines(hits[0]);
    if |hits| > 1 {
      var first, rest := EntryLines(hits[0]), ReportLines(hits[1..]);
      ReportJoinLines(hits[1..]);
      assert RenderVariableHits(hits) == [RenderVariableHit(hits[0])] + RenderVariableHits(hits[1..]);
      JoinCons(RenderVariableHit(hits[0]), RenderVariableHits(hits[1..]), "\n\n");
      calc {
        Join(ReportLines(hits), "\n");
        Join((first + [""]) + rest, "\n");
        { JoinConcat(first + [""], rest, "\n"); }
        Join(first + [""], "\n") + "\n" + Join(rest, "\n");
        { JoinConcat(first, [""], "\n"); }
        Join(first, "\n") + "\n" + "" + "\n" + Join(rest, "\n");
        { assert "\n" + "" + "\n" == "\n\n"; }
        Join(first, "\n") + "\n\n" + Join(rest, "\n");
      }
    }
  }

  /** An entry whose path and context lines hold no line break. */
  predicate SingleLineEntry(h: VariableHit) {
    '\n' !in h.path && NoneContains(h.context, '\n')
  }

  /** Such entries print lines without line breaks. */
  lemma {:induction false} ReportLinesClean(hits: seq<VariableHit>)
    requires forall i :: 0 <= i < |hits| ==> SingleLineEntry(hits[i])
    ensures NoneContains(ReportLines(hits), '\n')
    decreases |hits|
  {
    if |hits| > 0 {
      var h := hits[0];
      var digits := NatToString(h.line + 1);
      assert '\n' !in digits;
      assert NoneContains(EntryLines(h), '\n') by {
        forall i | 0 <= i < |EntryLines(h)| ensures '\n' !in EntryLines(h)[i] {
          if i > 0 {
            assert EntryLines(h)[i] == "  " + h.context[i - 1];
          }
        }
      }
      if |hits| > 1 {
        ReportLinesClean(hits[1..]);
        NoneContainsConcat(EntryLines(h), [""], '\n');
        NoneContainsConcat(EntryLines(h) + [""], ReportLines(hits[1..]), '\n');
      }
    }
  }

  /** Every entry carries at least its own line as context, and when the
      file's path holds no line break neither does any part of the entry. */
  lemma VariableHitShape(files: seq<FileEntry>, name: string, i: nat)
    requires i < |VariableHits(files, name)|
    requires forall k :: 0 <= k < |files| ==> '\n' !in files[k].relativePath
    ensures |VariableHits(files, name)[i].context| >= 1
    ensures SingleLineEntry(VariableHits(files, name)[i])
  {
    var k := VariableHitSource(files, name, i);
    EntryShape(files[k], name);
  }

  /** A file's entry keeps its path and carries a non-empty window of its
      lines, none of which holds a line break. */
  lemma EntryShape(f: FileEntry, name: string)
    requires VariableEntry(f, name).Some?
    ensures var h := VariableEntry(f, name).value;
      h.path == f.relativePath && |h.context| >= 1 && NoneContains(h.context, '\n')
  {
    var h := VariableEntry(f, name).value;
    var lines := Split(f.content.value, '\n');
    var a := if h.line >= 1 then h.line - 1 else 0;
    var b := if h.line + 2 <= |lines| then h.line + 2 else |lines|;
    assert h.context == lines[a..b];
    SplitPiecesLackSeparator(f.content.value, '\n');
    NoneContainsSlice(lines, a, b, '\n');
  }

  /** When no file path holds a line break, the report after its header
      splits into the lines of the first fifteen entries: each entry's
      location, its context lines indented by two spaces, and one blank line
      between entries. */
  lemma VariableReportLines(workspaceOpen: bool, find: FindFiles, name: string, scope: string)
    requires workspaceOpen && find(ScopePattern(scope)).Success?
    requires forall f :: f in find(ScopePattern(scope)).value ==> '\n' !in f.relativePath
    requires VariableHits(Take(find(ScopePattern(scope)).value, MaxVariableFiles), name) != []
    ensures var hits := VariableHits(Take(find(ScopePattern(scope)).value, MaxVariableFiles), name);
      var r := VariableSearch(workspaceOpen, find, name, scope);
      Split(r[|VariableHeader(name)|..], '\n') == ReportLines(Take(hits, MaxVariableResults))
  {
    var files := Take(find(ScopePattern(scope)).value, MaxVariableFiles);
    var hits := VariableHits(files, name);
    var kept := Take(hits, MaxVariableResults);
    assert forall k :: 0 <= k < |files| ==> '\n' !in files[k].relativePath by {
      forall k | 0 <= k < |files| ensures '\n' !in files[k].relativePath {
        assert files[k] in find(ScopePattern(scope)).value;
      }
    }
    forall j | 0 <= j < |kept| ensures |kept[j].context| >= 1 && SingleLineEntry(kept[j]) {
      assert kept[j] == hits[j];
      VariableHitShape(files, name, j);
    }
    ReportJoinLines(kept);
    ReportLinesClean(kept);
    var body := Join(RenderVariableHits(kept), "\n\n");
    HeadedBody(VariableHeader(name), body);
    SplitJoin(ReportLines(kept), '\n');
    assert [('\n')] == "\n";
  }

  /** A header followed by a join starts with the header and the first part
      and ends with the last part. */
  lemma HeadedJoin(header: string, parts: seq<string>, sep: string)
    requires |parts| >= 1
    ensures StartsWith(header + Join(parts, sep), header + parts[0])
    ensures EndsWith(header + Join(parts, sep), parts[|parts| - 1])
  {
    var body := Join(parts, sep);
    JoinStart(parts, sep);
    JoinEnd(parts, sep);
    var r := header + body;
    assert r[..|header| + |parts[0]|] == header + body[..|parts[0]|];
    assert r[|r| - |parts[|parts| - 1]|..] == body[|body| - |parts[|parts| - 1]|..];
  }
}
