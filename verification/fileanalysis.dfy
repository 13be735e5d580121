/** The pure line analyses inside the inspection tools of
    `src/utils/Tools.ts`: the structure counts, the variable-declaration
    scan, the import and export extraction with its order-keeping
    de-duplication, and the context window around a matching line. The file
    text is an input. */
module FileAnalysis {

  import opened Wrappers
  import opened Strings

  // ---------------------------------------------------------------------------
  // Counting lines

  /** `lines.filter(p).length`. */
  function CountWhere(lines: seq<string>, p: string -> bool): (n: nat)
    ensures n <= |lines|
    decreases |lines|
  {
    if |lines| == 0 then 0 else (if p(lines[0]) then 1 else 0) + CountWhere(lines[1..], p)
  }

  /** Counts over two line lists add up. */
  lemma {:induction false} CountAppend(a: seq<string>, b: seq<string>, p: string -> bool)
    ensures CountWhere(a + b, p) == CountWhere(a, p) + CountWhere(b, p)
    decreases |a|
  {
    if |a| == 0 {
      assert a + b == b;
    } else {
      assert (a + b)[1..] == a[1..] + b;
      CountAppend(a[1..], b, p);
    }
  }

  /** Lines that no line satisfies twice are counted at most once in all. */
  lemma {:induction false} CountDisjoint(lines: seq<string>, p: string -> bool, q: string -> bool)
    requires forall i :: 0 <= i < |lines| ==> !(p(lines[i]) && q(lines[i]))
    ensures CountWhere(lines, p) + CountWhere(lines, q) <= |lines|
    decreases |lines|
  {
    if |lines| > 0 {
      CountDisjoint(lines[1..], p, q);
    }
  }

  predicate IsEmptyLine(line: string) { Trim(line) == "" }

  predicate IsCommentLine(line: string) {
    StartsWith(Trim(line), "//") || StartsWith(Trim(line), "/*")
  }

  predicate IsImportLine(line: string) {
    StartsWith(Trim(line), "import") || StartsWith(Trim(line), "export")
  }

  predicate IsFunctionLine(line: string) {
    Contains(line, "function") || Contains(line, "=>") || Contains(line, "class")
  }

  /** The structure record of the file-content tool. */
  datatype StructureCounts = StructureCounts(
    totalLines: nat, emptyLines: nat, commentLines: nat, importLines: nat, functionLines: nat)

  /** The structure analysis of a file's lines. */
  function FileStructure(lines: seq<string>): (c: StructureCounts)
    ensures c.totalLines == |lines|
    ensures c.emptyLines <= c.totalLines && c.commentLines <= c.totalLines
    ensures c.importLines <= c.totalLines && c.functionLines <= c.totalLines
    ensures |lines| == 1 ==> c == StructureCounts(1,
      if IsEmptyLine(lines[0]) then 1 else 0, if IsCommentLine(lines[0]) then 1 else 0,
      if IsImportLine(lines[0]) then 1 else 0, if IsFunctionLine(lines[0]) then 1 else 0)
  {
    StructureCounts(|lines|, CountWhere(lines, IsEmptyLine), CountWhere(lines, IsCommentLine),
      CountWhere(lines, IsImportLine), CountWhere(lines, IsFunctionLine))
  }

  /** A blank line is neither a comment nor an import line, and no line is
      both, so these three counts share the lines between them. */
  lemma StructureCountsShareLines(lines: seq<string>)
    ensures var c := FileStructure(lines);
      c.emptyLines + c.commentLines <= c.totalLines
      && c.emptyLines + c.importLines <= c.totalLines
      && c.commentLines + c.importLines <= c.totalLines
  {
    forall i | 0 <= i < |lines| ensures !(IsEmptyLine(lines[i]) && IsCommentLine(lines[i]))
      && !(IsEmptyLine(lines[i]) && IsImportLine(lines[i]))
      && !(IsCommentLine(lines[i]) && IsImportLine(lines[i]))
    {
      var t := Trim(lines[i]);
      if IsCommentLine(lines[i]) { assert t[0] == '/'; }
      if IsImportLine(lines[i]) { assert t[0] == 'i' || t[0] == 'e'; }
    }
    CountDisjoint(lines, IsEmptyLine, IsCommentLine);
    CountDisjoint(lines, IsEmptyLine, IsImportLine);
    CountDisjoint(lines, IsCommentLine, IsImportLine);
  }

  /** The structure of two files' lines together is the sum of their
      structures. */
  lemma StructureAdds(a: seq<string>, b: seq<string>)
    ensures var ca := FileStructure(a);
      var cb := FileStructure(b);
      FileStructure(a + b) == StructureCounts(ca.totalLines + cb.totalLines, ca.emptyLines + cb.emptyLines,
        ca.commentLines + cb.commentLines, ca.importLines + cb.importLines, ca.functionLines + cb.functionLines)
  {
    CountAppend(a, b, IsEmptyLine);
    CountAppend(a, b, IsCommentLine);
    CountAppend(a, b, IsImportLine);
    CountAppend(a, b, IsFunctionLine);
  }

  // ---------------------------------------------------------------------------
  // First matching line and the window around it

  /** The index of the first line satisfying `p`. */
  function FirstMatch(lines: seq<string>, p: string -> bool): (r: Option<nat>)
    ensures r.None? <==> forall i :: 0 <= i < |lines| ==> !p(lines[i])
    ensures r.Some? ==> r.value < |lines| && p(lines[r.value])
    ensures r.Some? ==> forall i :: 0 <= i < r.value ==> !p(lines[i])
    decreases |lines|
  {
    if |lines| == 0 then None
    else if p(lines[0]) then Some(0)
    else
      match FirstMatch(lines[1..], p)
      case None => None
      case Some(i) => Some(i + 1)
  }

  /** `[max(0, i - before), min(n, i + after))`. */
  datatype Window = Window(start: nat, end: nat)

  function ContextWindow(n: nat, i: nat, before: nat, after: nat): (w: Window)
    requires i < n && after >= 1
    ensures w.start <= i < w.end <= n
    ensures i - w.start <= before && w.end - i <= after
    ensures w.start == 0 || i - w.start == before
    ensures w.end == n || w.end - i == after
  {
    Window(if i >= before then i - before else 0, if i + after <= n then i + after else n)
  }

  /** The window holds the matching line, at its offset from the start. */
  lemma WindowHoldsLine(lines: seq<string>, i: nat, before: nat, after: nat)
    requires i < |lines| && after >= 1
    ensures var w := ContextWindow(|lines|, i, before, after);
      lines[w.start..w.end][i - w.start] == lines[i]
  {
  }

  // ---------------------------------------------------------------------------
  // /(?:const|let|var)\s+(\w+)\s*=/g

  /** The length of the keyword the pattern sees at `p`, or 0. The three
      keywords start with different letters, so at most one applies. */
  function KeywordAt(s: string, p: nat): (k: nat)
    ensures k == 0 || k == 3 || k == 5
    ensures k > 0 ==> p + k <= |s| && (s[p] == 'c' || s[p] == 'l' || s[p] == 'v')
  {
    if OccursAt(s, "const", p) then 5
    else if OccursAt(s, "let", p) then 3
    else if OccursAt(s, "var", p) then 3
    else 0
  }

  /** A match of the declaration pattern starting at `p`: the declared name
      and where the match ends. `\s+` must take the whole whitespace run
      (a shorter run leaves a space where `\w` is needed) and `\w+` the
      whole word run (a shorter run leaves a word character where `\s*=`
      is needed), so the only freedom is none. */
  function DeclarationAt(s: string, p: nat): (r: Option<(string, nat)>)
    requires p <= |s|
    ensures r.Some? ==> p < r.value.1 <= |s| && r.value.0 != [] && AllWordChars(r.value.0)
    ensures r.Some? ==> s[r.value.1 - 1] == '='
  {
    var k := KeywordAt(s, p);
    if k == 0 then None
    else
      var w := SkipSpaces(s, p + k);
      if w == p + k then None
      else
        var e := Span(s, w, IsWordChar);
        if e == w then None
        else
          var a := SkipSpaces(s, e);
          if a < |s| && s[a] == '=' then Some((s[w..e], a + 1)) else None
  }

  /** The names captured by the global scan, in order, duplicates kept. A
      failed attempt moves on one character; a match resumes after its
      `=`. */
  function Declarations(s: string): (r: seq<string>)
    ensures forall i :: 0 <= i < |r| ==> r[i] != [] && AllWordChars(r[i])
    decreases |s|
  {
    if |s| == 0 then []
    else
      match DeclarationAt(s, 0)
      case Some((name, e)) => [name] + Declarations(s[e..])
      case None => Declarations(s[1..])
  }

  /** `const <name> = 0;`: a line the scan reads one name from. */
  function DeclarationLine(name: string): string {
    "const " + name + " = 0;"
  }

  /** Declarations written one per line are found, in order. */
  lemma {:induction false} DeclarationsRoundTrip(names: seq<string>)
    requires forall i :: 0 <= i < |names| ==> names[i] != [] && AllWordChars(names[i])
    ensures Declarations(Join(DeclarationLines(names), "\n")) == names
    decreases |names|
  {
    if |names| == 1 {
      DeclarationLineRead(names[0], "");
      assert Join(DeclarationLines(names), "\n") == DeclarationLine(names[0]) + "";
    } else if |names| > 1 {
      var rest := Join(DeclarationLines(names[1..]), "\n");
      assert Join(DeclarationLines(names), "\n") == DeclarationLine(names[0]) + ("\n" + rest) by {
        assert DeclarationLines(names) == [DeclarationLine(names[0])] + DeclarationLines(names[1..]);
        JoinCons(DeclarationLine(names[0]), DeclarationLines(names[1..]), "\n");
      }
      DeclarationThenLine(names[0], rest);
      DeclarationsRoundTrip(names[1..]);
    }
  }

  /** A declaration line followed by a line break and more text. */
  lemma DeclarationThenLine(name: string, rest: string)
    requires name != [] && AllWordChars(name)
    ensures Declarations(DeclarationLine(name) + ("\n" + rest)) == [name] + Declarations(rest)
  {
    DeclarationLineRead(name, "\n" + rest);
    NoKeywordPrefix("\n", rest);
  }

  function DeclarationLines(names: seq<string>): (r: seq<string>)
    ensures |r| == |names|
    decreases |names|
  {
    if |names| == 0 then [] else [DeclarationLine(names[0])] + DeclarationLines(names[1..])
  }

  /** A declaration line is read as its name; the scan goes on after the
      line's ` 0;`. */
  lemma DeclarationLineRead(name: string, tail: string)
    requires name != [] && AllWordChars(name)
    ensures Declarations(DeclarationLine(name) + tail) == [name] + Declarations(tail)
  {
    DeclarationLineMatch(name, tail);
    LineEndSkipped(tail);
    DeclarationsAfterMatch(DeclarationLine(name) + tail, name, 8 + |name|);
  }

  /** The pattern matches a declaration line at its start, up to its `=`. */
  lemma DeclarationLineMatch(name: string, tail: string)
    requires name != [] && AllWordChars(name)
    ensures var s := DeclarationLine(name) + tail;
      && 8 + |name| <= |s| && DeclarationAt(s, 0) == Some((name, 8 + |name|))
      && s[8 + |name|..] == (" = 0;" + tail)[2..]
  {
    var head, rest := "const ", " = 0;" + tail;
    var s := DeclarationLine(name) + tail;
    var n := |name|;
    assert s == head + (name + rest);
    Sandwich(head, name, rest);
    assert s[..6] == head;
    assert OccursAt(s, "const", 0) && s[5] == ' ' by {
      assert s[0..5] == head[..5];
    }
    assert s[6..6 + n] == name;
    forall k | 6 <= k < 6 + n ensures IsWordChar(s[k]) {
      assert s[k] == name[k - 6];
    }
    assert s[6 + n..] == rest;
    assert s[6 + n] == ' ' && s[7 + n] == '=' by {
      assert s[6 + n] == rest[0] && s[7 + n] == rest[1];
    }
    DeclarationAtShape(s, n);
  }

  /** A match at the start is the first name; the scan resumes after it. */
  lemma DeclarationsAfterMatch(s: string, name: string, e: nat)
    requires |s| > 0 && DeclarationAt(s, 0) == Some((name, e))
    ensures Declarations(s) == [name] + Declarations(s[e..])
  {
  }

  /** After the `=`, the scan passes over ` 0;` to the next line. */
  lemma LineEndSkipped(tail: string)
    ensures Declarations((" = 0;" + tail)[2..]) == Declarations(tail)
  {
    var end := " = 0;";
    assert (end + tail)[2..] == end[2..] + tail;
    NoKeywordPrefix(end[2..], tail);
  }

  /** The scan reads `const`, one space, a word of `n` characters, one space
      and `=` as a declaration of that word. */
  lemma DeclarationAtShape(s: string, n: nat)
    requires n > 0 && 8 + n <= |s|
    requires OccursAt(s, "const", 0) && s[5] == ' '
    requires forall k :: 6 <= k < 6 + n ==> IsWordChar(s[k])
    requires s[6 + n] == ' ' && s[7 + n] == '='
    ensures DeclarationAt(s, 0) == Some((s[6..6 + n], 8 + n))
  {
    assert KeywordAt(s, 0) == 5;
    assert SkipSpaces(s, 5) == 6 by {
      assert !IsSpace(s[6]);
      SpanFrom(s, 5, 6, IsSpace);
    }
    assert Span(s, 6, IsWordChar) == 6 + n by {
      SpanFrom(s, 6, 6 + n, IsWordChar);
    }
    assert SkipSpaces(s, 6 + n) == 7 + n by {
      SpanFrom(s, 6 + n, 7 + n, IsSpace);
    }
  }

  /** A character that starts no keyword is passed over. */
  lemma DeclarationsSkip(s: string)
    requires |s| > 0 && s[0] != 'c' && s[0] != 'l' && s[0] != 'v'
    ensures Declarations(s) == Declarations(s[1..])
  {
    assert KeywordAt(s, 0) == 0;
  }

  /** Characters that start no keyword are skipped one at a time. */
  lemma {:induction false} NoKeywordPrefix(skip: string, tail: string)
    requires forall i :: 0 <= i < |skip| ==> skip[i] != 'c' && skip[i] != 'l' && skip[i] != 'v'
    ensures Declarations(skip + tail) == Declarations(tail)
    decreases |skip|
  {
    if |skip| > 0 {
      var s := skip + tail;
      assert s[0] == skip[0];
      DeclarationsSkip(s);
      assert s[1..] == skip[1..] + tail;
      NoKeywordPrefix(skip[1..], tail);
    } else {
      assert skip + tail == tail;
    }
  }

  // ---------------------------------------------------------------------------
  // /^import\s+(?:.*?\s+from\s+)?['"]([^'"]+)['"]/ on a trimmed line

  predicate IsQuote(c: char) { c == '\'' || c == '"' }

  predicate IsNonQuote(c: char) { !IsQuote(c) }

  /** `['"]([^'"]+)['"]` at `b`: the quoted text. The class run is greedy
      and must be followed by a quote, so it is the whole non-quote run. */
  function QuotedAt(s: string, b: nat): (r: Option<string>)
    requires b <= |s|
    ensures r.Some? ==> r.value != [] && forall k :: 0 <= k < |r.value| ==> !IsQuote(r.value[k])
  {
    if b < |s| && IsQuote(s[b]) then
      var c := Span(s, b + 1, IsNonQuote);
      if c > b + 1 && c < |s| then Some(s[b + 1..c]) else None
    else None
  }

  /** `from\s+['"]([^'"]+)['"]` at `a`. */
  function FromAt(s: string, a: nat): (r: Option<string>)
    requires a <= |s|
    ensures r.Some? ==> r.value != []
  {
    if OccursAt(s, "from", a) then
      var b := SkipSpaces(s, a + 4);
      if b > a + 4 then QuotedAt(s, b) else None
    else None
  }

  /** The lazy `.*?` of the optional group, grown one character at a time
      from `g`: the first `g` at which `\s+from\s+` and the quoted path
      follow wins; `.` cannot cross a line terminator. */
  function LazyFrom(s: string, g: nat): (r: Option<string>)
    requires g <= |s|
    ensures r.Some? ==> r.value != []
    decreases |s| - g
  {
    if g == |s| then None
    else
      var here := if IsSpace(s[g]) then FromAt(s, SkipSpaces(s, g)) else None;
      if here.Some? then here
      else if IsLineTerminator(s[g]) then None
      else LazyFrom(s, g + 1)
  }

  /** The module an import line names. With the longest `\s+` after
      `import`, the group is tried first, then the quote right away; giving
      `\s+` back one character only adds the case of `from` right after the
      whitespace, which needs at least two whitespace characters. */
  function ImportOf(line: string): (r: Option<string>)
    ensures r.Some? ==> StartsWith(line, "import") && r.value != []
  {
    if !StartsWith(line, "import") then None
    else
      var w := SkipSpaces(line, 6);
      if w == 6 then None
      else
        var grouped := LazyFrom(line, w);
        if grouped.Some? then grouped
        else
          var direct := QuotedAt(line, w);
          if direct.Some? then direct
          else if w >= 8 then FromAt(line, w)
          else None
  }

  /** `import <binding> from '<path>'` names its path. */
  lemma ImportFromRead(binding: string, path: string)
    requires binding != [] && forall k :: 0 <= k < |binding| ==> !IsSpace(binding[k])
    requires path != [] && forall k :: 0 <= k < |path| ==> !IsQuote(path[k])
    ensures ImportOf("import " + binding + " from '" + path + "'") == Some(path)
  {
    var s := "import " + binding + " from '" + path + "'";
    var g := 7 + |binding|;
    assert s == "import " + (binding + (" from '" + (path + "'")));
    assert s[..6] == "import" && s[6] == ' ';
    forall k | 7 <= k < g ensures s[k] == binding[k - 7] && !IsSpace(s[k]) { }
    assert s[g] == ' ' && s[g + 1..g + 5] == "from" && s[g + 5] == ' ' && s[g + 6] == '\'';
    forall k | g + 7 <= k < g + 7 + |path| ensures s[k] == path[k - g - 7] && IsNonQuote(s[k]) { }
    assert s[g + 7 + |path|] == '\'';
    ImportFromShape(s, g, |path|);
    assert s[g + 7..g + 7 + |path|] == path;
  }

  /** `import`, one space, a word up to `g`, then ` from '...'` with a
      quoted text of `len` characters. */
  lemma ImportFromShape(s: string, g: nat, len: nat)
    requires 7 < g && len > 0 && g + 7 + len < |s|
    requires StartsWith(s, "import") && s[6] == ' '
    requires forall k :: 7 <= k < g ==> !IsSpace(s[k])
    requires s[g] == ' ' && OccursAt(s, "from", g + 1) && s[g + 5] == ' ' && IsQuote(s[g + 6])
    requires forall k :: g + 7 <= k < g + 7 + len ==> IsNonQuote(s[k])
    requires IsQuote(s[g + 7 + len])
    ensures ImportOf(s) == Some(s[g + 7..g + 7 + len])
  {
    GroupAt(s, g, len);
    LazySkipsWord(s, 7, g);
    OneSpaceAt(s, 6);
    ImportOfGrouped(s, 7);
  }

  /** A lone space before a non-space is the whole whitespace run. */
  lemma OneSpaceAt(s: string, i: nat)
    requires i + 1 < |s| && IsSpace(s[i]) && !IsSpace(s[i + 1])
    ensures SkipSpaces(s, i) == i + 1
  {
    SpanFrom(s, i, i + 1, IsSpace);
  }

  /** The lazy group stops at a space that `from` and a quoted path follow. */
  lemma GroupAt(s: string, g: nat, len: nat)
    requires len > 0 && g + 7 + len < |s|
    requires s[g] == ' ' && OccursAt(s, "from", g + 1) && s[g + 5] == ' ' && IsQuote(s[g + 6])
    requires forall k :: g + 7 <= k < g + 7 + len ==> IsNonQuote(s[k])
    requires IsQuote(s[g + 7 + len])
    ensures LazyFrom(s, g) == Some(s[g + 7..g + 7 + len])
  {
    FromShape(s, g + 1, len);
    OneSpaceAt(s, g);
    LazyFromHere(s, g, s[g + 7..g + 7 + len]);
  }

  /** The lazy group stops at whitespace that `from` and a quoted path follow. */
  lemma LazyFromHere(s: string, g: nat, path: string)
    requires g < |s| && IsSpace(s[g]) && FromAt(s, SkipSpaces(s, g)) == Some(path)
    ensures LazyFrom(s, g) == Some(path)
  {
  }

  /** When the optional group matches, it gives the path. */
  lemma ImportOfGrouped(s: string, w: nat)
    requires StartsWith(s, "import") && 6 < w <= |s| && SkipSpaces(s, 6) == w && LazyFrom(s, w).Some?
    ensures ImportOf(s) == LazyFrom(s, w)
  {
  }

  /** `from`, one space and a quoted text of `len` characters at `a`. */
  lemma FromShape(s: string, a: nat, len: nat)
    requires len > 0 && a + 6 + len < |s|
    requires OccursAt(s, "from", a) && s[a + 4] == ' ' && IsQuote(s[a + 5])
    requires forall k :: a + 6 <= k < a + 6 + len ==> IsNonQuote(s[k])
    requires IsQuote(s[a + 6 + len])
    ensures FromAt(s, a) == Some(s[a + 6..a + 6 + len])
  {
    assert SkipSpaces(s, a + 4) == a + 5 by { SpanFrom(s, a + 4, a + 5, IsSpace); }
    assert Span(s, a + 6, IsNonQuote) == a + 6 + len by { SpanFrom(s, a + 6, a + 6 + len, IsNonQuote); }
  }

  /** The lazy group passes over characters that are neither whitespace nor
      line terminators. */
  lemma {:induction false} LazySkipsWord(s: string, from: nat, g: nat)
    requires from <= g <= |s|
    requires forall k :: from <= k < g ==> !IsSpace(s[k])
    ensures LazyFrom(s, from) == LazyFrom(s, g)
    decreases g - from
  {
    if from < g {
      assert !IsLineTerminator(s[from]);
      LazySkipsWord(s, from + 1, g);
    }
  }

  /** `import '<path>'` names its path. */
  lemma ImportBareRead(path: string)
    requires path != [] && forall k :: 0 <= k < |path| ==> !IsQuote(path[k]) && !IsSpace(path[k])
    ensures ImportOf("import '" + path + "'") == Some(path)
  {
    var s := "import '" + path + "'";
    var e := 8 + |path|;
    assert s == "import '" + (path + "'");
    assert s[..6] == "import" && s[6] == ' ' && s[7] == '\'' && s[e] == '\'';
    forall k | 8 <= k < e ensures s[k] == path[k - 8] && IsNonQuote(s[k]) && !IsSpace(s[k]) { }
    assert SkipSpaces(s, 6) == 7 by { SpanFrom(s, 6, 7, IsSpace); }
    LazySkipsWord(s, 7, |s|);
    assert Span(s, 8, IsNonQuote) == e by { SpanFrom(s, 8, e, IsNonQuote); }
    assert s[8..e] == path;
  }

  // ---------------------------------------------------------------------------
  // /^export\s+(?:.*?\s+)?(\w+)/ on a trimmed line

  /** The word run starting at `a`. */
  function WordAt(s: string, a: nat): (r: Option<string>)
    requires a <= |s|
    ensures r.Some? ==> r.value != [] && AllWordChars(r.value)
  {
    if a < |s| && IsWordChar(s[a]) then Some(s[a..Span(s, a, IsWordChar)]) else None
  }

  /** The lazy `.*?` of the optional group: the first whitespace run that
      a word follows. */
  function LazyWord(s: string, g: nat): (r: Option<string>)
    requires g <= |s|
    ensures r.Some? ==> r.value != [] && AllWordChars(r.value)
    decreases |s| - g
  {
    if g == |s| then None
    else
      var here := if IsSpace(s[g]) then WordAt(s, SkipSpaces(s, g)) else None;
      if here.Some? then here
      else if IsLineTerminator(s[g]) then None
      else LazyWord(s, g + 1)
  }

  /** The name an export line exports: the word after the first whitespace
      run that follows the first word, or the first word itself. */
  function ExportOf(line: string): (r: Option<string>)
    ensures r.Some? ==> StartsWith(line, "export") && r.value != [] && AllWordChars(r.value)
  {
    if !StartsWith(line, "export") then None
    else
      var w := SkipSpaces(line, 6);
      if w == 6 then None
      else
        var grouped := LazyWord(line, w);
        if grouped.Some? then grouped else WordAt(line, w)
  }

  /** `export <keyword> <name>...` exports the name after the keyword. */
  lemma ExportRead(keyword: string, name: string, tail: string)
    requires keyword != [] && forall k :: 0 <= k < |keyword| ==> !IsSpace(keyword[k])
    requires name != [] && AllWordChars(name)
    requires tail == [] || !IsWordChar(tail[0])
    ensures ExportOf("export " + keyword + " " + name + tail) == Some(name)
  {
    var s := "export " + keyword + " " + name + tail;
    var g := 7 + |keyword|;
    var e := g + 1 + |name|;
    assert s == "export " + (keyword + (" " + (name + tail)));
    assert s[..6] == "export" && s[6] == ' ' && s[g] == ' ';
    forall k | 7 <= k < g ensures s[k] == keyword[k - 7] && !IsSpace(s[k]) { }
    forall k | g + 1 <= k < e ensures s[k] == name[k - g - 1] && IsWordChar(s[k]) { }
    assert e == |s| || !IsWordChar(s[e]) by {
      if e < |s| { assert s[e] == tail[0]; }
    }
    assert s[g + 1..e] == name;
    ExportShape(s, g, e);
  }

  /** `export`, one space, a word up to `g`, one space and a word run
      ending at `e`. */
  lemma ExportShape(s: string, g: nat, e: nat)
    requires 7 < g < e <= |s| && g + 1 < e
    requires StartsWith(s, "export") && s[6] == ' ' && s[g] == ' '
    requires forall k :: 7 <= k < g ==> !IsSpace(s[k])
    requires forall k :: g + 1 <= k < e ==> IsWordChar(s[k])
    requires e == |s| || !IsWordChar(s[e])
    ensures ExportOf(s) == Some(s[g + 1..e])
  {
    assert LazyWord(s, g) == Some(s[g + 1..e]) by {
      OneSpaceAt(s, g);
      assert Span(s, g + 1, IsWordChar) == e by { SpanFrom(s, g + 1, e, IsWordChar); }
    }
    LazyWordSkips(s, 7, g);
    OneSpaceAt(s, 6);
    ExportOfGrouped(s, 7);
  }

  /** When the optional group matches, it gives the name. */
  lemma ExportOfGrouped(s: string, w: nat)
    requires StartsWith(s, "export") && 6 < w <= |s| && SkipSpaces(s, 6) == w && LazyWord(s, w).Some?
    ensures ExportOf(s) == LazyWord(s, w)
  {
  }

  lemma {:induction false} LazyWordSkips(s: string, from: nat, g: nat)
    requires from <= g <= |s|
    requires forall k :: from <= k < g ==> !IsSpace(s[k])
    ensures LazyWord(s, from) == LazyWord(s, g)
    decreases g - from
  {
    if from < g {
      assert !IsLineTerminator(s[from]);
      LazyWordSkips(s, from + 1, g);
    }
  }

  // ---------------------------------------------------------------------------
  // [...new Set(items)]

  /** The items without repeats, each at its first occurrence. */
  function Dedup(items: seq<string>): (r: seq<string>)
    ensures forall x :: x in r <==> x in items
    ensures forall i, j :: 0 <= i < j < |r| ==> r[i] != r[j]
    ensures |r| <= |items|
    decreases |items|
  {
    if |items| == 0 then []
    else
      var d := Dedup(items[..|items| - 1]);
      var last := items[|items| - 1];
      assert forall x :: x in items <==> x in items[..|items| - 1] || x == last by {
        assert items == items[..|items| - 1] + [last];
      }
      if last in d then d else d + [last]
  }

  /** The position of the first occurrence. */
  function FirstIndex(items: seq<string>, x: string): (i: nat)
    requires x in items
    ensures i < |items| && items[i] == x && forall k :: 0 <= k < i ==> items[k] != x
    decreases |items|
  {
    if items[0] == x then 0 else 1 + FirstIndex(items[1..], x)
  }

  /** The kept items are in the order of their first occurrences. */
  lemma {:induction false} DedupKeepsFirstOrder(items: seq<string>, i: nat, j: nat)
    requires i < j < |Dedup(items)|
    ensures FirstIndex(items, Dedup(items)[i]) < FirstIndex(items, Dedup(items)[j])
    decreases |items|
  {
    var prefix := items[..|items| - 1];
    var d := Dedup(prefix);
    var last := items[|items| - 1];
    var r := Dedup(items);
    FirstIndexOfPrefix(items, r[i]);
    FirstIndexOfPrefix(items, r[j]);
    if j < |d| {
      assert r[i] == d[i] && r[j] == d[j];
      DedupKeepsFirstOrder(prefix, i, j);
    } else {
      assert r[j] == last && last !in d && last !in prefix;
      assert r[i] == d[i] && d[i] in prefix;
    }
  }

  /** An item first seen before the last position keeps its first index in
      the prefix; the last item, if new, is first seen there. */
  lemma FirstIndexOfPrefix(items: seq<string>, x: string)
    requires x in items && |items| > 0
    ensures var prefix := items[..|items| - 1];
      (x in prefix ==> FirstIndex(items, x) == FirstIndex(prefix, x))
      && (x !in prefix ==> FirstIndex(items, x) == |items| - 1)
  {
    var prefix := items[..|items| - 1];
    var i := FirstIndex(items, x);
    if x in prefix {
      var p := FirstIndex(prefix, x);
      assert items[p] == x;
    } else {
      assert forall k :: 0 <= k < |items| - 1 ==> items[k] == prefix[k];
    }
  }

  /** De-duplicating twice changes nothing. */
  lemma DedupIdempotent(items: seq<string>)
    ensures Dedup(Dedup(items)) == Dedup(items)
  {
    DedupDistinct(Dedup(items));
  }

  lemma {:induction false} DedupDistinct(items: seq<string>)
    requires forall i, j :: 0 <= i < j < |items| ==> items[i] != items[j]
    ensures Dedup(items) == items
    decreases |items|
  {
    if |items| > 0 {
      var prefix := items[..|items| - 1];
      DedupDistinct(prefix);
      assert items[|items| - 1] !in prefix;
      assert prefix + [items[|items| - 1]] == items;
    }
  }

  // ---------------------------------------------------------------------------
  // The dependency scan of one file

  /** What the dependency tool reports about a file's lines. */
  datatype Dependencies = Dependencies(imports: seq<string>, exports: seq<string>)

  /** Imports and exports of every trimmed line, in line order. */
  function ScanLines(lines: seq<string>): (r: Dependencies)
    decreases |lines|
  {
    if |lines| == 0 then Dependencies([], [])
    else
      var t := Trim(lines[0]);
      var rest := ScanLines(lines[1..]);
      Dependencies(
        (match ImportOf(t) case Some(m) => [m] case None => []) + rest.imports,
        (match ExportOf(t) case Some(x) => [x] case None => []) + rest.exports)
  }

  /** The file's imports and exports, each without repeats. */
  function FileDependencies(lines: seq<string>): (r: Dependencies)
    ensures forall x :: x in r.imports <==> x in ScanLines(lines).imports
    ensures forall x :: x in r.exports <==> x in ScanLines(lines).exports
    ensures forall i, j :: 0 <= i < j < |r.imports| ==> r.imports[i] != r.imports[j]
    ensures forall i, j :: 0 <= i < j < |r.exports| ==> r.exports[i] != r.exports[j]
  {
    var all := ScanLines(lines);
    Dependencies(Dedup(all.imports), Dedup(all.exports))
  }

  /** Every import reported comes from a line that starts with `import`
      once trimmed. */
  lemma {:induction false} ImportsFromImportLines(lines: seq<string>, m: string)
    requires m in ScanLines(lines).imports
    ensures exists k :: 0 <= k < |lines| && ImportOf(Trim(lines[k])) == Some(m)
    decreases |lines|
  {
    if ImportOf(Trim(lines[0])) != Some(m) {
      ImportsFromImportLines(lines[1..], m);
      var k :| 0 <= k < |lines[1..]| && ImportOf(Trim(lines[1..][k])) == Some(m);
      assert lines[k + 1] == lines[1..][k];
    }
  }
}
