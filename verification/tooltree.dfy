/** The directory scan of the project-structure tool in
    `src/utils/Tools.ts`. The file system is an input: a directory's listing
    is what `readdirSync` returned or the error text it threw, and an entry
    `statSync` cannot stat carries the error text it threw. */
module ProjectTree {

  import opened Wrappers
  import opened Strings

  /** One name in a directory listing, as `statSync` classifies it. */
  datatype Entry =
    | TreeFile(name: string)
    | TreeDir(name: string, listing: Result<seq<Entry>, string>)
    | Unstatable(name: string, error: string)

  /** The scan result: an object of named fields in listing order, or a
      string. */
  datatype Node = Folder(fields: seq<(string, Node)>) | Leaf(text: string)

  /** `analysisDepth` to the deepest level scanned. */
  function MaxDepthFor(analysisDepth: string): (d: nat)
    ensures analysisDepth == "shallow" ==> d == 2
    ensures analysisDepth == "medium" ==> d == 3
    ensures analysisDepth != "shallow" && analysisDepth != "medium" ==> d == 4
    ensures 2 <= d <= 4
  {
    if analysisDepth == "shallow" then 2 else if analysisDepth == "medium" then 3 else 4
  }

  /** Hidden names and `node_modules` are passed over. */
  predicate IsSkipped(name: string) {
    StartsWith(name, ".") || name == "node_modules"
  }

  /** `path.extname` of a name that does not start with a dot: from the last
      dot to the end, or "" when there is none. */
  function ExtName(name: string): (r: string)
    ensures r == [] || (r[0] == '.' && EndsWith(name, r))
    ensures r != [] ==> forall k :: 1 <= k < |r| ==> r[k] != '.'
    decreases |name|
  {
    if |name| == 0 then ""
    else if name[|name| - 1] == '.' then "."
    else
      var e := ExtName(name[..|name| - 1]);
      if e == [] then "" else e + [name[|name| - 1]]
  }

  /** A name has an extension exactly when it contains a dot. */
  lemma {:induction false} ExtNameIffDot(name: string)
    ensures ExtName(name) != [] <==> '.' in name
    decreases |name|
  {
    if |name| > 0 && name[|name| - 1] != '.' {
      var init := name[..|name| - 1];
      ExtNameIffDot(init);
      assert name == init + [name[|name| - 1]];
    }
  }

  /** The extension of a name is its last dot and everything after it. */
  lemma {:induction false} ExtNameLastDot(stem: string, ext: string)
    requires '.' !in ext
    ensures ExtName(stem + "." + ext) == "." + ext
    decreases |ext|
  {
    var name := stem + "." + ext;
    if |ext| == 0 {
      assert name[|name| - 1] == '.';
    } else {
      var init, last := ext[..|ext| - 1], ext[|ext| - 1];
      assert ext == init + [last];
      assert name == (stem + "." + init) + [last];
      ExtNameLastDot(stem, init);
    }
  }

  const TreeExtensions: seq<string> := [".ts", ".tsx", ".js", ".jsx", ".json", ".md"]

  function ErrorText(error: string): string {
    "[Error reading directory: " + error + "]"
  }

  function DirectorySummary(count: nat): string {
    "[Directory - " + NatToString(count) + " items]"
  }

  function FileLabel(ext: string): string {
    "[" + ext + " file]"
  }

  /** Whether an entry the scan does not skip throws inside the loop at this
      depth: an entry that cannot be stat'ed, or a directory at the last
      level whose listing cannot be read. */
  predicate ItemFails(e: Entry, depth: nat, maxDepth: nat) {
    !IsSkipped(e.name)
    && (e.Unstatable? || (e.TreeDir? && depth == maxDepth && e.listing.Failure?))
  }

  /** Whether an entry gets a field of its own. */
  predicate IsListed(e: Entry) {
    !IsSkipped(e.name) && (e.TreeDir? || (e.TreeFile? && ExtName(e.name) in TreeExtensions))
  }

  /** The names that get fields, in listing order. */
  function ListedNames(items: seq<Entry>): (r: seq<string>)
    ensures |r| <= |items|
    decreases |items|
  {
    if |items| == 0 then []
    else (if IsListed(items[0]) then [items[0].name] else []) + ListedNames(items[1..])
  }

  function FieldNames(fields: seq<(string, Node)>): (r: seq<string>)
    ensures |r| == |fields|
    ensures forall i :: 0 <= i < |fields| ==> r[i] == fields[i].0
    decreases |fields|
  {
    if |fields| == 0 then [] else [fields[0].0] + FieldNames(fields[1..])
  }

  /** `scanDirectory(dir, depth, maxDepth)` over the directory's listing. A
      throw anywhere in the loop turns the whole directory into its error
      text; a subdirectory's own failure stays inside its field. */
  function Scan(listing: Result<seq<Entry>, string>, depth: nat, maxDepth: nat): (n: Node)
    requires depth <= maxDepth
    decreases maxDepth - depth, 1, 0
  {
    match listing
    case Failure(e) => Leaf(ErrorText(e))
    case Success(items) =>
      match ScanItems(items, depth, maxDepth)
      case Failure(e) => Leaf(ErrorText(e))
      case Success(fields) => Folder(fields)
  }

  /** The loop over a listing: the fields, or the error of the first entry
      that throws. */
  function ScanItems(items: seq<Entry>, depth: nat, maxDepth: nat): (r: Result<seq<(string, Node)>, string>)
    requires depth <= maxDepth
    ensures r.Success? <==> forall k :: 0 <= k < |items| ==> !ItemFails(items[k], depth, maxDepth)
    ensures r.Success? ==> FieldNames(r.value) == ListedNames(items)
    decreases maxDepth - depth, 0, |items|
  {
    if |items| == 0 then Success([])
    else
      var rest := ScanItems(items[1..], depth, maxDepth);
      assert forall k :: 1 <= k < |items| ==> items[k] == items[1..][k - 1];
      match ItemFields(items[0], depth, maxDepth)
      case Failure(e) => Failure(e)
      case Success(own) =>
        match rest
        case Failure(e) => Failure(e)
        case Success(fields) => Success(own + fields)
  }

  /** What one entry adds to its directory's object: nothing, one field, or
      the error it throws. */
  function ItemFields(e: Entry, depth: nat, maxDepth: nat): (r: Result<seq<(string, Node)>, string>)
    requires depth <= maxDepth
    ensures r.Failure? <==> ItemFails(e, depth, maxDepth)
    ensures r.Success? ==> FieldNames(r.value) == if IsListed(e) then [e.name] else []
    decreases maxDepth - depth, 0, 0
  {
    if IsSkipped(e.name) then Success([])
    else
      match e
      case Unstatable(_, error) => Failure(error)
      case TreeDir(name, listing) =>
        if depth < maxDepth then Success([(name, Scan(listing, depth + 1, maxDepth))])
        else if listing.Failure? then Failure(listing.error)
        else Success([(name, Leaf(DirectorySummary(|listing.value|)))])
      case TreeFile(name) =>
        var ext := ExtName(name);
        if ext in TreeExtensions then Success([(name, Leaf(FileLabel(ext)))]) else Success([])
  }

  /** The fields of a listing are the fields of its first entry followed by
      those of the rest. */
  lemma ScanItemsCons(items: seq<Entry>, depth: nat, maxDepth: nat)
    requires depth <= maxDepth && |items| > 0
    requires ScanItems(items, depth, maxDepth).Success?
    ensures ItemFields(items[0], depth, maxDepth).Success? && ScanItems(items[1..], depth, maxDepth).Success?
    ensures ScanItems(items, depth, maxDepth).value
      == ItemFields(items[0], depth, maxDepth).value + ScanItems(items[1..], depth, maxDepth).value
  {
  }

  /** No field anywhere in the scan is hidden or `node_modules`. */
  predicate NoSkippedNames(n: Node)
    decreases n
  {
    match n
    case Leaf(_) => true
    case Folder(fields) =>
      forall i :: 0 <= i < |fields| ==> !IsSkipped(fields[i].0) && NoSkippedNames(fields[i].1)
  }

  lemma {:induction false} ScanPrunes(listing: Result<seq<Entry>, string>, depth: nat, maxDepth: nat)
    requires depth <= maxDepth
    ensures NoSkippedNames(Scan(listing, depth, maxDepth))
    decreases maxDepth - depth, 1, 0
  {
    if listing.Success? {
      ScanItemsPrune(listing.value, depth, maxDepth);
    }
  }

  lemma {:induction false} ScanItemsPrune(items: seq<Entry>, depth: nat, maxDepth: nat)
    requires depth <= maxDepth
    ensures var r := ScanItems(items, depth, maxDepth);
      r.Success? ==> forall i :: 0 <= i < |r.value| ==> !IsSkipped(r.value[i].0) && NoSkippedNames(r.value[i].1)
    decreases maxDepth - depth, 0, |items|
  {
    if |items| > 0 && ScanItems(items, depth, maxDepth).Success? {
      ScanItemsCons(items, depth, maxDepth);
      ScanItemsPrune(items[1..], depth, maxDepth);
      var e := items[0];
      if !IsSkipped(e.name) && e.TreeDir? && depth < maxDepth {
        ScanPrunes(e.listing, depth + 1, maxDepth);
      }
    }
  }

  /** A scan result nests at most `h` folders. */
  predicate WithinDepth(n: Node, h: nat)
    decreases n
  {
    match n
    case Leaf(_) => true
    case Folder(fields) => h >= 1 && forall i :: 0 <= i < |fields| ==> WithinDepth(fields[i].1, h - 1)
  }

  /** A scan started at `depth` nests at most `maxDepth - depth + 1` folders:
      directories at the last level are summarised, not entered. */
  lemma {:induction false} ScanDepthBound(listing: Result<seq<Entry>, string>, depth: nat, maxDepth: nat)
    requires depth <= maxDepth
    ensures WithinDepth(Scan(listing, depth, maxDepth), maxDepth - depth + 1)
    decreases maxDepth - depth, 1, 0
  {
    if listing.Success? {
      ScanItemsDepth(listing.value, depth, maxDepth);
    }
  }

  lemma {:induction false} ScanItemsDepth(items: seq<Entry>, depth: nat, maxDepth: nat)
    requires depth <= maxDepth
    ensures var r := ScanItems(items, depth, maxDepth);
      r.Success? ==> FieldsWithin(r.value, maxDepth - depth)
    decreases maxDepth - depth, 0, |items|, 1
  {
    if |items| > 0 && ScanItems(items, depth, maxDepth).Success? {
      ScanItemsDepth(items[1..], depth, maxDepth);
      ScanItemsDepthCons(items, depth, maxDepth);
    }
  }

  /** A scan whose later entries stay within the depth stays within it. */
  lemma {:induction false} ScanItemsDepthCons(items: seq<Entry>, depth: nat, maxDepth: nat)
    requires depth <= maxDepth && |items| > 0 && ScanItems(items, depth, maxDepth).Success?
    requires var r := ScanItems(items[1..], depth, maxDepth);
      r.Success? ==> FieldsWithin(r.value, maxDepth - depth)
    ensures FieldsWithin(ScanItems(items, depth, maxDepth).value, maxDepth - depth)
    decreases maxDepth - depth, 0, |items|, 0
  {
    ScanItemsCons(items, depth, maxDepth);
    var own := ItemFields(items[0], depth, maxDepth);
    var rest := ScanItems(items[1..], depth, maxDepth);
    ItemFieldsDepth(items[0], depth, maxDepth);
    FieldsWithinConcat(own.value, rest.value, maxDepth - depth);
  }

  lemma {:induction false} ItemFieldsDepth(e: Entry, depth: nat, maxDepth: nat)
    requires depth <= maxDepth
    ensures var r := ItemFields(e, depth, maxDepth);
      r.Success? ==> FieldsWithin(r.value, maxDepth - depth)
    decreases maxDepth - depth, 0, 0
  {
    if !IsSkipped(e.name) && e.TreeDir? && depth < maxDepth {
      ScanDepthBound(e.listing, depth + 1, maxDepth);
    }
  }

  /** Every field's node nests at most `h` folders. */
  predicate FieldsWithin(fields: seq<(string, Node)>, h: nat) {
    forall i :: 0 <= i < |fields| ==> WithinDepth(fields[i].1, h)
  }

  lemma FieldsWithinConcat(a: seq<(string, Node)>, b: seq<(string, Node)>, h: nat)
    requires FieldsWithin(a, h) && FieldsWithin(b, h)
    ensures FieldsWithin(a + b, h)
  {
    forall i | 0 <= i < |a + b| ensures WithinDepth((a + b)[i].1, h) {
      if i >= |a| { assert (a + b)[i] == b[i - |a|]; }
    }
  }

  /** A directory at the last level is summarised with the number of names
      its listing holds, hidden ones and `node_modules` included. */
  lemma SummaryCountsEverything(name: string, children: seq<Entry>, depth: nat)
    requires !IsSkipped(name)
    ensures ItemFields(TreeDir(name, Success(children)), depth, depth)
      == Success([(name, Leaf(DirectorySummary(|children|)))])
  {
  }

  /** A file is listed, labelled with its extension, exactly when that
      extension is one of the six. */
  lemma FileListedIff(name: string, depth: nat, maxDepth: nat)
    requires depth <= maxDepth && !IsSkipped(name)
    ensures ItemFields(TreeFile(name), depth, maxDepth)
      == if ExtName(name) in TreeExtensions then Success([(name, Leaf(FileLabel(ExtName(name))))]) else Success([])
  {
  }

  /** `notes.txt` has the extension `.txt`. */
  lemma TextFilesUnlisted()
    ensures ExtName("notes.txt") == ".txt"
    ensures ".txt" !in TreeExtensions
  {
    assert "notes.txt"[..8] == "notes.tx";
    assert "notes.tx"[..7] == "notes.t";
    assert "notes.t"[..6] == "notes.";
  }
}
