/** The five inspection tools of `src/utils/Tools.ts` and their registry
    `allTools`. Each tool turns its parameters and the workspace into one
    report string; the workspace (whether a folder is open, what
    `findFiles` returns, each file's text, the directory tree and
    `package.json`) is an input. */
module Tools {

  import opened Wrappers
  import opened Strings
  import opened Json
  import opened FileAnalysis
  import opened ToolSearch
  import opened ProjectTree
  import Analysis

  /** The fields of `package.json` the dependency tool reads; `None` when
      the field is missing. */
  datatype PackageData = PackageData(dependencies: Option<Json>, devDependencies: Option<Json>)

  /** What the tools see of the editor and the disk. `readFile(p)` is
      `None` when `p` does not exist, else the text or what reading threw;
      `packageJson` is `None` without a `package.json`, else its parsed
      fields or the error reading or parsing it. */
  datatype Workspace = Workspace(
    isOpen: bool,
    find: FindFiles,
    readFile: string -> Option<Result<string, Thrown>>,
    root: Result<seq<Entry>, string>,
    packageJson: Option<Result<PackageData, string>>)

  /** One call of a tool with its parameters. */
  datatype ToolCall =
    | CodebaseSearchCall(query: string)
    | FileContentCall(filePath: string, analysisType: string)
    | ProjectStructureCall(analysisDepth: string)
    | VariableSearchCall(variableName: string, searchScope: string)
    | DependencyCall(filePath: string, includeDevDependencies: bool)

  /** The names of `allTools`, in order. */
  const AllToolNames: seq<string> :=
    ["codebase_search", "file_content_analysis", "project_structure_analysis", "variable_search", "dependency_analysis"]

  function ToolName(call: ToolCall): string {
    match call
    case CodebaseSearchCall(_) => "codebase_search"
    case FileContentCall(_, _) => "file_content_analysis"
    case ProjectStructureCall(_) => "project_structure_analysis"
    case VariableSearchCall(_, _) => "variable_search"
    case DependencyCall(_, _) => "dependency_analysis"
  }

  /** The registry names each tool once. */
  lemma ToolNamesDistinct()
    ensures |AllToolNames| == 5
    ensures forall i, j :: 0 <= i < j < |AllToolNames| ==> AllToolNames[i] != AllToolNames[j]
  {
    assert AllToolNames[0][0] == 'c' && AllToolNames[1][0] == 'f' && AllToolNames[2][0] == 'p';
    assert AllToolNames[3][0] == 'v' && AllToolNames[4][0] == 'd';
  }

  /** The call the context-gathering agent makes for a request. */
  function CallOf(r: Analysis.ToolRequest): ToolCall {
    match r
    case SearchRequest(query) => CodebaseSearchCall(query)
    case StructureRequest(depth) => ProjectStructureCall(depth)
    case VariableRequest(name, scope) => VariableSearchCall(name, scope)
    case DependencyRequest(path, includeDev) => DependencyCall(path, includeDev)
  }

  /** The agent picks tools by position, and each position holds the tool
      the request is meant for. */
  lemma PositionsHitIntendedTools(r: Analysis.ToolRequest)
    ensures Analysis.ToolPosition(r) < |AllToolNames|
    ensures AllToolNames[Analysis.ToolPosition(r)] == ToolName(CallOf(r))
  {
  }

  // ---------------------------------------------------------------------------
  // file_content_analysis

  /** The structure record as `JSON.stringify` sees it. */
  function StructureValue(c: StructureCounts): Json {
    JObject([
      ("totalLines", JNumber(c.totalLines)),
      ("emptyLines", JNumber(c.emptyLines)),
      ("commentLines", JNumber(c.commentLines)),
      ("importLines", JNumber(c.importLines)),
      ("functionLines", JNumber(c.functionLines))])
  }

  /** `lines.filter(keep)`. */
  function Filter(lines: seq<string>, keep: string -> bool): (r: seq<string>)
    ensures |r| == CountWhere(lines, keep)
    ensures forall i :: 0 <= i < |r| ==> keep(r[i]) && r[i] in lines
    ensures |lines| == 1 ==> r == if keep(lines[0]) then lines else []
    decreases |lines|
  {
    if |lines| == 0 then [] else (if keep(lines[0]) then [lines[0]] else []) + Filter(lines[1..], keep)
  }

  /** Filtering two line lists one after the other keeps the lines of each,
      in order. */
  lemma {:induction false} FilterAppend(a: seq<string>, b: seq<string>, keep: string -> bool)
    ensures Filter(a + b, keep) == Filter(a, keep) + Filter(b, keep)
    decreases |a|
  {
    if |a| == 0 {
      assert a + b == b;
    } else {
      assert (a + b)[1..] == a[1..] + b;
      FilterAppend(a[1..], b, keep);
    }
  }

  const PreviewLines: nat := 20

  function StructureHeader(filePath: string): string {
    "File structure analysis for " + filePath + ":\n"
  }

  function PreviewHeader(filePath: string): string {
    "Content preview for " + filePath + " (first 20 lines):\n"
  }

  function ImportsHeader(filePath: string): string {
    "Dependencies and exports in " + filePath + ":\n"
  }

  function VariablesHeader(filePath: string): string {
    "Variables found in " + filePath + ":\n"
  }

  /** The report for one analysis of a file's text: the five counts of its
      lines; its first 20 lines; its import and export lines; the names it
      declares; or the unknown-type message. */
  function FileReport(filePath: string, analysisType: string, text: string): (r: string)
    ensures analysisType == "structure" ==> r == StructureReport(filePath, Split(text, '\n'))
    ensures analysisType == "content" ==> r == PreviewReport(filePath, text)
    ensures analysisType == "dependencies" ==> r == ImportsReport(filePath, text)
    ensures analysisType == "variables" ==> r == VariablesReport(filePath, text)
    ensures analysisType !in ["structure", "content", "dependencies", "variables"] ==>
      r == "Unknown analysis type: " + analysisType
  {
    var lines := Split(text, '\n');
    if analysisType == "structure" then StructureReport(filePath, lines)
    else if analysisType == "content" then PreviewReport(filePath, text)
    else if analysisType == "dependencies" then ImportsReport(filePath, text)
    else if analysisType == "variables" then VariablesReport(filePath, text)
    else "Unknown analysis type: " + analysisType
  }

  /** The structure report prints each field of the structure record, the
      five counts of the lines, as a line of its own. */
  function StructureReport(filePath: string, lines: seq<string>): (r: string)
    ensures StartsWith(r, StructureHeader(filePath))
    ensures var fields := StructureValue(FileStructure(lines)).fields;
      |fields| == 5 && forall i :: 0 <= i < 5 ==> Contains(r, MemberLine(fields[i].0, fields[i].1, 1))
  {
    var header := StructureHeader(filePath);
    var fields := StructureValue(FileStructure(lines)).fields;
    forall i | 0 <= i < 5 ensures Contains(header + Stringify(JObject(fields), 0), MemberLine(fields[i].0, fields[i].1, 1)) {
      HeaderObjectShows(header, fields, i);
    }
    header + Stringify(JObject(fields), 0)
  }

  function PreviewReport(filePath: string, text: string): (r: string)
    ensures StartsWith(r, PreviewHeader(filePath))
    ensures Split(r[|PreviewHeader(filePath)|..], '\n') == Take(Split(text, '\n'), PreviewLines)
  {
    var body := Join(Take(Split(text, '\n'), PreviewLines), "\n");
    PreviewIsFirstLines(text);
    HeadedBody(PreviewHeader(filePath), body);
    PreviewHeader(filePath) + body
  }

  function ImportsReport(filePath: string, text: string): (r: string)
    ensures var kept := Filter(Split(text, '\n'), IsImportLine);
      && StartsWith(r, ImportsHeader(filePath))
      && (kept == [] ==> r == ImportsHeader(filePath))
      && (kept != [] ==> Split(r[|ImportsHeader(filePath)|..], '\n') == kept)
  {
    var lines := Split(text, '\n');
    var kept := Filter(lines, IsImportLine);
    SplitPiecesLackSeparator(text, '\n');
    ImportLinesRead(lines);
    HeadedBody(ImportsHeader(filePath), Join(kept, "\n"));
    ImportsHeader(filePath) + Join(kept, "\n")
  }

  function VariablesReport(filePath: string, text: string): (r: string)
    ensures StartsWith(r, VariablesHeader(filePath))
    ensures forall i :: 0 <= i < |Declarations(text)| ==> Contains(r, Declarations(text)[i])
    ensures Declarations(text) == [] ==> r == VariablesHeader(filePath)
    ensures Declarations(text) != [] ==> CommaItems(r[|VariablesHeader(filePath)|..]) == Declarations(text)
  {
    var names := Declarations(text);
    NamesListed(VariablesHeader(filePath), names);
    HeadedBody(VariablesHeader(filePath), Join(names, ", "));
    NamesReadBack(names);
    VariablesHeader(filePath) + Join(names, ", ")
  }

  /** A non-empty list of identifiers joined with ", " reads back as the list. */
  lemma NamesReadBack(names: seq<string>)
    requires forall i :: 0 <= i < |names| ==> AllWordChars(names[i])
    ensures names != [] ==> CommaItems(Join(names, ", ")) == names
  {
    if names != [] {
      WordNamesLackComma(names);
      CommaItemsJoin(names);
    }
  }

  /** Identifiers never contain a comma. */
  lemma WordNamesLackComma(names: seq<string>)
    requires forall i :: 0 <= i < |names| ==> AllWordChars(names[i])
    ensures NoneContains(names, ',')
  {
    forall i, k | 0 <= i < |names| && 0 <= k < |names[i]| ensures names[i][k] != ',' {
      assert IsWordChar(names[i][k]);
    }
  }

  /** Each field of an object printed after a header appears in the text. */
  lemma HeaderObjectShows(header: string, fields: seq<(string, Json)>, i: nat)
    requires i < |fields|
    ensures Contains(header + Stringify(JObject(fields), 0), MemberLine(fields[i].0, fields[i].1, 1))
  {
    ObjectShowsField(fields, i, 0);
    ContainsInConcat(header, Stringify(JObject(fields), 0), MemberLine(fields[i].0, fields[i].1, 1));
  }

  /** The import and export lines, joined by line breaks, split back into
      themselves; none means an empty body. */
  lemma ImportLinesRead(lines: seq<string>)
    requires NoneContains(lines, '\n')
    ensures var kept := Filter(lines, IsImportLine);
      (kept == [] ==> Join(kept, "\n") == "")
      && (kept != [] ==> Split(Join(kept, "\n"), '\n') == kept)
  {
    var kept := Filter(lines, IsImportLine);
    if kept != [] {
      assert NoneContains(kept, '\n') by {
        forall i | 0 <= i < |kept| ensures '\n' !in kept[i] {
          var j :| 0 <= j < |lines| && lines[j] == kept[i];
        }
      }
      SplitJoin(kept, '\n');
      assert [('\n')] == "\n";
    }
  }

  /** Every name of a comma-separated list appears in the report. */
  lemma NamesListed(header: string, names: seq<string>)
    ensures StartsWith(header + Join(names, ", "), header)
    ensures forall i :: 0 <= i < |names| ==> Contains(header + Join(names, ", "), names[i])
  {
    forall i | 0 <= i < |names| ensures Contains(header + Join(names, ", "), names[i]) {
      ContainsPart(names, i, ", ");
      ContainsInConcat(header, Join(names, ", "), names[i]);
    }
  }

  // ---------------------------------------------------------------------------
  // Reading printed values

  /** Containment is transitive. */
  lemma ContainsTrans(a: string, b: string, c: string)
    requires Contains(a, b) && Contains(b, c)
    ensures Contains(a, c)
  {
    var i := ContainsWitness(a, b);
    var j := ContainsWitness(b, c);
    forall t | 0 <= t < |c| ensures a[i + j + t] == c[t] {
      assert a[i + j + t] == a[i..i + |b|][j + t];
      assert c[t] == b[j..j + |c|][t];
    }
    assert a[i + j..i + j + |c|] == c;
    ContainsAt(a, c, i + j);
  }

  /** A text contains what it starts with. */
  lemma ContainsPrefix(a: string, b: string)
    ensures Contains(a + b, a)
  {
    assert (a + b)[0..|a|] == a;
    ContainsAt(a + b, a, 0);
  }

  /** Each part of a join occurs in it. */
  lemma ContainsPart(parts: seq<string>, i: nat, sep: string)
    requires i < |parts|
    ensures Contains(Join(parts, sep), parts[i])
  {
    var pre, post := JoinAround(parts, i, sep);
    assert pre + parts[i] + post == pre + (parts[i] + post);
    ContainsMiddle(pre, parts[i], post);
  }

  /** The inside of a bracketed value occurs in it. */
  lemma BracketedShows(open: string, lines: seq<string>, close: string, level: nat, line: string)
    requires Contains(Join(lines, ",\n"), line)
    ensures Contains(Bracketed(open, lines, close, level), line)
  {
    var j := Join(lines, ",\n");
    ContainsInConcat(open + "\n", j, line);
    ContainsInConcat(open + "\n" + j, "\n", line);
    ContainsInConcat(open + "\n" + j + "\n", Indent(level), line);
    ContainsInConcat(open + "\n" + j + "\n" + Indent(level), close, line);
  }

  /** Each field of an object is printed as its own member line. */
  lemma ObjectShowsField(fields: seq<(string, Json)>, i: nat, level: nat)
    requires i < |fields|
    ensures Contains(Stringify(JObject(fields), level), MemberLine(fields[i].0, fields[i].1, level + 1))
  {
    var v := JObject(fields);
    var lines := FieldLines(v, 0, level + 1);
    FieldLineAt(v, 0, level + 1, i);
    ContainsPart(lines, i, ",\n");
    BracketedShows("{", lines, "}", level, lines[i]);
  }

  /** Each item of an array is printed on its own line. */
  lemma ArrayShowsItem(items: seq<Json>, i: nat, level: nat)
    requires i < |items|
    ensures Contains(Stringify(JArray(items), level), Indent(level + 1) + Stringify(items[i], level + 1))
  {
    var v := JArray(items);
    var lines := ItemLines(v, 0, level + 1);
    ItemLineAt(v, 0, level + 1, i);
    ContainsPart(lines, i, ",\n");
    BracketedShows("[", lines, "]", level, lines[i]);
  }

  /** `file_content_analysis`. */
  function FileContentAnalysis(ws: Workspace, filePath: string, analysisType: string): (r: string)
    ensures !ws.isOpen ==> r == NoWorkspace
    ensures ws.isOpen && ws.readFile(filePath).None? ==> r == "File not found: " + filePath
    ensures ws.isOpen && ws.readFile(filePath).Some? && ws.readFile(filePath).value.Failure? ==>
      r == "Error analyzing file: " + ws.readFile(filePath).value.error.MessageOr("Unknown error")
    ensures ws.isOpen && ws.readFile(filePath).Some? && ws.readFile(filePath).value.Success? ==>
      r == FileReport(filePath, analysisType, ws.readFile(filePath).value.value)
  {
    if !ws.isOpen then NoWorkspace
    else
      match ws.readFile(filePath)
      case None => "File not found: " + filePath
      case Some(Failure(t)) => "Error analyzing file: " + t.MessageOr("Unknown error")
      case Some(Success(text)) => FileReport(filePath, analysisType, text)
  }

  /** The content preview is exactly the first 20 lines of the file. */
  lemma PreviewIsFirstLines(text: string)
    ensures |Split(Join(Take(Split(text, '\n'), PreviewLines), "\n"), '\n')| <= PreviewLines
    ensures Split(Join(Take(Split(text, '\n'), PreviewLines), "\n"), '\n') == Take(Split(text, '\n'), PreviewLines)
  {
    var lines := Split(text, '\n');
    var kept := Take(lines, PreviewLines);
    SplitPiecesLackSeparator(text, '\n');
    assert NoneContains(kept, '\n') by {
      forall i | 0 <= i < |kept| ensures '\n' !in kept[i] { assert kept[i] == lines[i]; }
    }
    SplitJoin(kept, '\n');
    assert [('\n')] == "\n";
  }

  /** The dependencies view lists exactly as many lines as the structure
      view counts as import lines. */
  lemma DependencyViewMatchesCount(text: string)
    ensures |Filter(Split(text, '\n'), IsImportLine)| == FileStructure(Split(text, '\n')).importLines
  {
  }

  // ---------------------------------------------------------------------------
  // project_structure_analysis

  /** The scan result as `JSON.stringify` sees it. */
  function NodeValue(n: Node): (v: Json)
    decreases n
  {
    match n
    case Leaf(text) => JString(text)
    case Folder(fields) => JObject(seq(|fields|, i requires 0 <= i < |fields| => (fields[i].0, NodeValue(fields[i].1))))
  }

  function ProjectHeader(analysisDepth: string): string {
    "Project structure analysis (" + analysisDepth + " depth):\n"
  }

  /** `project_structure_analysis`: the scan of the workspace root down to
      the depth the parameter names. A root that cannot be listed, or an
      entry of it that throws, turns the whole report into the quoted error
      text. */
  function ProjectStructure(ws: Workspace, analysisDepth: string): (r: string)
    ensures !ws.isOpen ==> r == NoWorkspace
    ensures ws.isOpen ==> StartsWith(r, ProjectHeader(analysisDepth))
    ensures ws.isOpen && ws.root.Failure? ==> r == ProjectHeader(analysisDepth) + Quote(ErrorText(ws.root.error))
    ensures ws.isOpen && ws.root.Success? && ScanItems(ws.root.value, 0, MaxDepthFor(analysisDepth)).Failure? ==>
      r == ProjectHeader(analysisDepth) + Quote(ErrorText(ScanItems(ws.root.value, 0, MaxDepthFor(analysisDepth)).error))
  {
    if !ws.isOpen then NoWorkspace
    else
      var header := ProjectHeader(analysisDepth);
      var tree := Scan(ws.root, 0, MaxDepthFor(analysisDepth));
      assert (header + Stringify(NodeValue(tree), 0))[..|header|] == header;
      header + Stringify(NodeValue(tree), 0)
  }

  /** When the root and all its entries can be read, every entry the scan
      lists is printed as a top-level key of the report. */
  lemma ProjectStructureListsRoot(ws: Workspace, analysisDepth: string, i: nat)
    requires ws.isOpen && ws.root.Success?
    requires forall k :: 0 <= k < |ws.root.value| ==> !ItemFails(ws.root.value[k], 0, MaxDepthFor(analysisDepth))
    requires i < |ListedNames(ws.root.value)|
    ensures Contains(ProjectStructure(ws, analysisDepth), Indent(1) + Quote(ListedNames(ws.root.value)[i]) + ": ")
  {
    var header := ProjectHeader(analysisDepth);
    var fields := ScanItems(ws.root.value, 0, MaxDepthFor(analysisDepth)).value;
    var name := ListedNames(ws.root.value)[i];
    assert fields[i].0 == name by {
      assert FieldNames(fields)[i] == fields[i].0;
    }
    var v := NodeValue(Folder(fields));
    assert v.fields[i] == (name, NodeValue(fields[i].1));
    var line := MemberLine(name, NodeValue(fields[i].1), 1);
    HeaderObjectShows(header, v.fields, i);
    ContainsPrefix(Indent(1) + Quote(name) + ": ", Stringify(NodeValue(fields[i].1), 1));
    ContainsTrans(header + Stringify(v, 0), line, Indent(1) + Quote(name) + ": ");
  }

  // ---------------------------------------------------------------------------
  // dependency_analysis

  /** `projectDependencies`: empty unless `package.json` exists and parses;
      missing fields become `{}`, and so do the dev dependencies unless
      asked for. */
  function ProjectDependencies(packageJson: Option<Result<PackageData, string>>, includeDev: bool): (v: Json)
    ensures !includeDev && v.JObject? && |v.fields| == 2 ==> v.fields[1] == ("devDependencies", JObject([]))
    ensures v != JObject([]) <==> packageJson.Some? && packageJson.value.Success?
    ensures v != JObject([]) ==>
      && v.JObject? && |v.fields| == 2
      && v.fields[0] == ("dependencies", packageJson.value.value.dependencies.GetOr(JObject([])))
      && (includeDev ==> v.fields[1] == ("devDependencies", packageJson.value.value.devDependencies.GetOr(JObject([]))))
  {
    match packageJson
    case Some(Success(data)) =>
      JObject([
        ("dependencies", data.dependencies.GetOr(JObject([]))),
        ("devDependencies", if includeDev then data.devDependencies.GetOr(JObject([])) else JObject([]))])
    case _ => JObject([])
  }

  function JStrings(items: seq<string>): (r: seq<Json>)
    ensures |r| == |items|
    ensures forall i :: 0 <= i < |items| ==> r[i] == JString(items[i])
    decreases |items|
  {
    if |items| == 0 then [] else [JString(items[0])] + JStrings(items[1..])
  }

  /** The dependency record as `JSON.stringify` sees it. */
  function DependencyValue(filePath: string, deps: Dependencies, project: Json): Json {
    JObject([
      ("file", JString(filePath)),
      ("dependencies", JArray(JStrings(deps.imports))),
      ("exports", JArray(JStrings(deps.exports))),
      ("projectDependencies", project)])
  }

  /** `dependency_analysis`. */
  function DependencyAnalysis(ws: Workspace, filePath: string, includeDev: bool): (r: string)
    ensures !ws.isOpen ==> r == NoWorkspace
    ensures ws.isOpen && ws.readFile(filePath).None? ==> r == "File not found: " + filePath
    ensures ws.isOpen && ws.readFile(filePath).Some? && ws.readFile(filePath).value.Failure? ==>
      r == "Error analyzing dependencies: " + ws.readFile(filePath).value.error.MessageOr("Unknown error")
  {
    if !ws.isOpen then NoWorkspace
    else
      match ws.readFile(filePath)
      case None => "File not found: " + filePath
      case Some(Failure(t)) => "Error analyzing dependencies: " + t.MessageOr("Unknown error")
      case Some(Success(text)) =>
        var deps := FileDependencies(Split(text, '\n'));
        var value := DependencyValue(filePath, deps, ProjectDependencies(ws.packageJson, includeDev));
        "Dependency analysis for " + filePath + ":\n" + Stringify(value, 0)
  }

  /** A successful dependency report prints the file name, lists every
      module the file imports under "dependencies" and every name it
      exports under "exports", and prints the package's dependencies under
      "projectDependencies". */
  lemma DependencyReportShows(ws: Workspace, filePath: string, includeDev: bool)
    requires ws.isOpen && ws.readFile(filePath).Some? && ws.readFile(filePath).value.Success?
    ensures var lines := Split(ws.readFile(filePath).value.value, '\n');
      var deps := FileDependencies(lines);
      var r := DependencyAnalysis(ws, filePath, includeDev);
      var importsLine := MemberLine("dependencies", JArray(JStrings(deps.imports)), 1);
      var exportsLine := MemberLine("exports", JArray(JStrings(deps.exports)), 1);
      && StartsWith(r, "Dependency analysis for " + filePath + ":\n")
      && Contains(r, MemberLine("file", JString(filePath), 1))
      && Contains(r, importsLine) && Contains(r, exportsLine)
      && Contains(r, MemberLine("projectDependencies", ProjectDependencies(ws.packageJson, includeDev), 1))
      && (forall x :: x in ScanLines(lines).imports ==> Contains(importsLine, Indent(2) + Quote(x)))
      && (forall x :: x in ScanLines(lines).exports ==> Contains(exportsLine, Indent(2) + Quote(x)))
  {
    var lines := Split(ws.readFile(filePath).value.value, '\n');
    var deps := FileDependencies(lines);
    var header := "Dependency analysis for " + filePath + ":\n";
    DependencyValueShows(header, filePath, deps, ProjectDependencies(ws.packageJson, includeDev));
    forall x | x in ScanLines(lines).imports
      ensures Contains(MemberLine("dependencies", JArray(JStrings(deps.imports)), 1), Indent(2) + Quote(x))
    {
      ListedItemShown("dependencies", deps.imports, x);
    }
    forall x | x in ScanLines(lines).exports
      ensures Contains(MemberLine("exports", JArray(JStrings(deps.exports)), 1), Indent(2) + Quote(x))
    {
      ListedItemShown("exports", deps.exports, x);
    }
  }

  /** The printed dependency record shows its file, dependencies, exports
      and project dependencies members. */
  lemma DependencyValueShows(header: string, filePath: string, deps: Dependencies, project: Json)
    ensures var r := header + Stringify(DependencyValue(filePath, deps, project), 0);
      && StartsWith(r, header)
      && Contains(r, MemberLine("file", JString(filePath), 1))
      && Contains(r, MemberLine("dependencies", JArray(JStrings(deps.imports)), 1))
      && Contains(r, MemberLine("exports", JArray(JStrings(deps.exports)), 1))
      && Contains(r, MemberLine("projectDependencies", project, 1))
  {
    var v := DependencyValue(filePath, deps, project);
    HeadedBody(header, Stringify(v, 0));
    HeaderObjectShows(header, v.fields, 0);
    HeaderObjectShows(header, v.fields, 1);
    HeaderObjectShows(header, v.fields, 2);
    HeaderObjectShows(header, v.fields, 3);
  }

  /** A string in a listed array appears on its own line of the member. */
  lemma ListedItemShown(key: string, items: seq<string>, x: string)
    requires x in items
    ensures Contains(MemberLine(key, JArray(JStrings(items)), 1), Indent(2) + Quote(x))
  {
    var j :| 0 <= j < |items| && items[j] == x;
    var arr := JStrings(items);
    ArrayShowsItem(arr, j, 1);
    assert Stringify(arr[j], 2) == Quote(x);
    ContainsInConcat(Indent(1) + Quote(key) + ": ", Stringify(JArray(arr), 1), Indent(2) + Quote(x));
  }

  /** A `package.json` that cannot be read or parsed is ignored, exactly as
      a missing one. */
  lemma BrokenPackageIgnored(error: string, includeDev: bool)
    ensures ProjectDependencies(Some(Failure(error)), includeDev) == ProjectDependencies(None, includeDev)
    ensures ProjectDependencies(None, includeDev) == JObject([])
  {
  }

  // ---------------------------------------------------------------------------
  // The registry

  /** `tool.invoke(params)` for each tool. No tool throws: every failure is
      part of the report. */
  function RunTool(ws: Workspace, call: ToolCall): (r: string)
    ensures !ws.isOpen ==> r == NoWorkspace || r == NoWorkspaceForSearch
  {
    match call
    case CodebaseSearchCall(query) => CodebaseSearch(ws.isOpen, ws.find, query)
    case FileContentCall(filePath, analysisType) => FileContentAnalysis(ws, filePath, analysisType)
    case ProjectStructureCall(depth) => ProjectStructure(ws, depth)
    case VariableSearchCall(name, scope) => VariableSearch(ws.isOpen, ws.find, name, scope)
    case DependencyCall(filePath, includeDev) => DependencyAnalysis(ws, filePath, includeDev)
  }

  /** The agent's view of the tools over a workspace. */
  function WorkspaceInvoke(ws: Workspace): (invoke: Analysis.Invoke)
    ensures forall q: Analysis.ToolRequest :: q.SearchRequest? ==>
      invoke(q) == Success(CodebaseSearch(ws.isOpen, ws.find, q.query))
    ensures forall q: Analysis.ToolRequest :: q.VariableRequest? ==>
      invoke(q) == Success(VariableSearch(ws.isOpen, ws.find, q.variableName, q.scope))
    ensures forall q: Analysis.ToolRequest :: q.StructureRequest? ==>
      invoke(q) == Success(ProjectStructure(ws, q.depth))
    ensures forall q: Analysis.ToolRequest :: q.DependencyRequest? ==>
      invoke(q) == Success(DependencyAnalysis(ws, q.filePath, q.includeDev))
  {
    r => Success(RunTool(ws, CallOf(r)))
  }

  /** With these tools the agent's own failure messages never appear: the
      initial context holds the structure and dependency reports, the
      codebase search report of each search term, and the project-wide
      variable search report of each identifier, in order. */
  lemma GatheringWithTools(prompt: string, fileName: string, ws: Workspace)
    ensures var ctx := Analysis.InitialContext(prompt, fileName, WorkspaceInvoke(ws));
      var terms := Analysis.ExtractSearchTerms(prompt);
      var names := Analysis.ExtractVariablePatterns(prompt);
      && ctx.projectStructure == ProjectStructure(ws, "medium")
      && ctx.dependencies == DependencyAnalysis(ws, fileName, false)
      && |ctx.relevantFiles| == |terms|
      && (forall i :: 0 <= i < |terms| ==> ctx.relevantFiles[i] == CodebaseSearch(ws.isOpen, ws.find, terms[i]))
      && |ctx.existingVariables| == |names|
      && (forall i :: 0 <= i < |names| ==>
            ctx.existingVariables[i] == VariableSearch(ws.isOpen, ws.find, names[i], "project_wide"))
  {
    var invoke := WorkspaceInvoke(ws);
    WorkspaceAnswers(ws, fileName);
    SearchesWithTools(prompt, ws);
    LookupsWithTools(prompt, ws);
    var ctx := Analysis.InitialContext(prompt, fileName, invoke);
    assert ctx.relevantFiles == Analysis.SearchRelevantCode(prompt, invoke);
    assert ctx.existingVariables == Analysis.SearchExistingVariables(prompt, invoke);
  }

  /** Each search term gets the codebase search report for it. */
  lemma SearchesWithTools(prompt: string, ws: Workspace)
    ensures var terms := Analysis.ExtractSearchTerms(prompt);
      var r := Analysis.SearchRelevantCode(prompt, WorkspaceInvoke(ws));
      |r| == |terms| && forall i :: 0 <= i < |terms| ==> r[i] == CodebaseSearch(ws.isOpen, ws.find, terms[i])
  {
    var invoke := WorkspaceInvoke(ws);
    var searches := Analysis.SearchRequests(Analysis.ExtractSearchTerms(prompt));
    assert forall i :: 0 <= i < |searches| ==> invoke(searches[i]).Success?;
  }

  /** Each identifier gets the project-wide variable search report for it. */
  lemma LookupsWithTools(prompt: string, ws: Workspace)
    ensures var names := Analysis.ExtractVariablePatterns(prompt);
      var r := Analysis.SearchExistingVariables(prompt, WorkspaceInvoke(ws));
      |r| == |names| && forall i :: 0 <= i < |names| ==>
        r[i] == VariableSearch(ws.isOpen, ws.find, names[i], "project_wide")
  {
    var invoke := WorkspaceInvoke(ws);
    var lookups := Analysis.VariableRequests(Analysis.ExtractVariablePatterns(prompt));
    assert forall i :: 0 <= i < |lookups| ==> invoke(lookups[i]).Success?;
  }

  /** The workspace tools answer every request; the structure and the
      dependency requests reach their tools. */
  lemma WorkspaceAnswers(ws: Workspace, fileName: string)
    ensures forall q: Analysis.ToolRequest :: WorkspaceInvoke(ws)(q).Success?
    ensures WorkspaceInvoke(ws)(Analysis.StructureRequest("medium")) == Success(ProjectStructure(ws, "medium"))
    ensures WorkspaceInvoke(ws)(Analysis.DependencyRequest(fileName, false)) ==
      Success(DependencyAnalysis(ws, fileName, false))
  {
    var invoke := WorkspaceInvoke(ws);
    assert CallOf(Analysis.StructureRequest("medium")) == ProjectStructureCall("medium");
    assert CallOf(Analysis.DependencyRequest(fileName, false)) == DependencyCall(fileName, false);
  }
}
