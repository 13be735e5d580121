/** `JSON.stringify(value, null, 2)` as the inspection tools of
    `src/utils/Tools.ts` use it: string escaping, and the two-space layout of
    objects and arrays. Escaping is paired with the reading of a JSON string
    body, so what a tool prints can be read back. */
module Json {

  import opened Wrappers
  import opened Strings

  /** The values the tools print. */
  datatype Json =
    | JString(text: string)
    | JNumber(n: nat)
    | JArray(items: seq<Json>)
    | JObject(fields: seq<(string, Json)>)

  // ---------------------------------------------------------------------------
  // Strings

  /** A character JSON cannot hold unescaped. */
  predicate IsControl(c: char) { c as int < 0x20 }

  function HexDigit(d: nat): (c: char)
    requires d < 16
  {
    "0123456789abcdef"[d]
  }

  /** The value of a hex digit, either case. */
  function HexValue(c: char): (r: Option<nat>)
    ensures r.Some? ==> r.value < 16
  {
    if '0' <= c <= '9' then Some(c as int - '0' as int)
    else if 'a' <= c <= 'f' then Some(c as int - 'a' as int + 10)
    else if 'A' <= c <= 'F' then Some(c as int - 'A' as int + 10)
    else None
  }

  lemma HexDigitValue(d: nat)
    requires d < 16
    ensures HexValue(HexDigit(d)) == Some(d)
  {
  }

  /** How `JSON.stringify` writes one character inside a string. */
  function EscapeChar(c: char): (r: string)
    ensures |r| >= 1
  {
    if c == '"' then "\\\""
    else if c == '\\' then "\\\\"
    else if c as int == 0x08 then "\\b"
    else if c as int == 0x0C then "\\f"
    else if c == '\n' then "\\n"
    else if c == '\r' then "\\r"
    else if c == '\t' then "\\t"
    else if IsControl(c) then "\\u00" + [HexDigit(c as int / 16), HexDigit(c as int % 16)]
    else [c]
  }

  function Escape(s: string): (r: string)
    ensures |r| >= |s|
    decreases |s|
  {
    if |s| == 0 then "" else EscapeChar(s[0]) + Escape(s[1..])
  }

  /** A JSON string literal. */
  function Quote(s: string): (r: string)
    ensures |r| >= 2 && r[0] == '"' && r[|r| - 1] == '"'
  {
    "\"" + Escape(s) + "\""
  }

  /** An escape needs at least its backslash and letter. */
  function EscapedChar(t: string): (r: Option<(char, nat)>)
    requires |t| >= 1 && t[0] == '\\'
    ensures r.Some? ==> 2 <= r.value.1 <= |t|
  {
    if |t| < 2 then None
    else if t[1] == '"' then Some(('"', 2))
    else if t[1] == '\\' then Some(('\\', 2))
    else if t[1] == '/' then Some(('/', 2))
    else if t[1] == 'b' then Some((0x08 as char, 2))
    else if t[1] == 'f' then Some((0x0C as char, 2))
    else if t[1] == 'n' then Some(('\n', 2))
    else if t[1] == 'r' then Some(('\r', 2))
    else if t[1] == 't' then Some(('\t', 2))
    else if t[1] == 'u' && |t| >= 6 then
      match (HexValue(t[2]), HexValue(t[3]), HexValue(t[4]), HexValue(t[5]))
      case (Some(a), Some(b), Some(c), Some(d)) =>
        var v := 4096 * a + 256 * b + 16 * c + d;
        if v < 0xD800 || 0xE000 <= v then Some((v as char, 6)) else None
      case _ => None
    else None
  }

  /** The text a JSON string body stands for, or `None` when it is not a
      valid body (a raw quote or control character, a bad escape). A lone
      surrogate escape is refused, as characters here are scalar values. */
  function Unescape(t: string): (r: Option<string>)
    decreases |t|
  {
    if |t| == 0 then Some("")
    else if t[0] == '\\' then
      match EscapedChar(t)
      case None => None
      case Some((c, n)) =>
        match Unescape(t[n..])
        case None => None
        case Some(rest) => Some([c] + rest)
    else if t[0] == '"' || IsControl(t[0]) then None
    else
      match Unescape(t[1..])
      case None => None
      case Some(rest) => Some([t[0]] + rest)
  }

  /** Reading one escaped character back. */
  lemma UnescapeChar(c: char, t: string)
    ensures Unescape(EscapeChar(c) + t) == match Unescape(t) case None => None case Some(rest) => Some([c] + rest)
  {
    var e := EscapeChar(c);
    var s := e + t;
    if c == '"' || c == '\\' || c as int == 0x08 || c as int == 0x0C || c == '\n' || c == '\r' || c == '\t' {
      assert s[0] == '\\' && s[2..] == t;
    } else if IsControl(c) {
      var hi := c as int / 16;
      var lo := c as int % 16;
      assert s[0] == '\\' && s[1] == 'u' && s[2] == '0' && s[3] == '0';
      assert s[4] == HexDigit(hi) && s[5] == HexDigit(lo);
      HexDigitValue(hi);
      HexDigitValue(lo);
      assert EscapedChar(s) == Some((c, 6));
      assert s[6..] == t;
    } else {
      assert s[0] == c && s[1..] == t;
    }
  }

  /** Escaping is undone by reading the body back. */
  lemma {:induction false} UnescapeEscape(s: string)
    ensures Unescape(Escape(s)) == Some(s)
    decreases |s|
  {
    if |s| > 0 {
      UnescapeEscape(s[1..]);
      UnescapeChar(s[0], Escape(s[1..]));
      assert [s[0]] + s[1..] == s;
    }
  }

  /** An escaped string holds no raw control character. */
  lemma {:induction false} EscapeIsClean(s: string)
    ensures forall k :: 0 <= k < |Escape(s)| ==> !IsControl(Escape(s)[k])
    decreases |s|
  {
    if |s| > 0 {
      var e := EscapeChar(s[0]);
      var rest := Escape(s[1..]);
      EscapeIsClean(s[1..]);
      EscapeCharIsClean(s[0]);
      assert Escape(s) == e + rest;
      NoControlConcat(e, rest);
    }
  }

  lemma EscapeCharIsClean(c: char)
    ensures forall k :: 0 <= k < |EscapeChar(c)| ==> !IsControl(EscapeChar(c)[k])
  {
  }

  lemma NoControlConcat(a: string, b: string)
    requires forall k :: 0 <= k < |a| ==> !IsControl(a[k])
    requires forall k :: 0 <= k < |b| ==> !IsControl(b[k])
    ensures forall k :: 0 <= k < |a + b| ==> !IsControl((a + b)[k])
  {
  }

  /** A quoted string stays on one line. */
  lemma QuoteIsOneLine(s: string)
    ensures '\n' !in Quote(s)
  {
    var e := Escape(s);
    EscapeIsClean(s);
    var q := Quote(s);
    forall k | 0 <= k < |q| ensures q[k] != '\n' {
      if 0 < k < |q| - 1 { assert q[k] == e[k - 1]; }
    }
  }

  // ---------------------------------------------------------------------------
  // Layout

  /** Two spaces per level. */
  function Indent(level: nat): (r: string)
    ensures |r| == 2 * level && AllSpace(r)
  {
    if level == 0 then "" else "  " + Indent(level - 1)
  }

  /** `JSON.stringify(v, null, 2)` at nesting `level`: empty containers as
      `[]` and `{}`, others one member per line, indented one level
      deeper, the closing bracket at this level. */
  function Stringify(v: Json, level: nat): (r: string)
    ensures |r| >= 1
    decreases v, 1, 0
  {
    match v
    case JString(text) => Quote(text)
    case JNumber(n) => NatToString(n)
    case JArray(items) =>
      if |items| == 0 then "[]" else Bracketed("[", ItemLines(v, 0, level + 1), "]", level)
    case JObject(fields) =>
      if |fields| == 0 then "{}" else Bracketed("{", FieldLines(v, 0, level + 1), "}", level)
  }

  /** A bracket, the member lines separated by commas, and the closing
      bracket at `level`, each on its own line. */
  function Bracketed(open: string, lines: seq<string>, close: string, level: nat): string {
    open + "\n" + Join(lines, ",\n") + "\n" + Indent(level) + close
  }

  /** The member lines of an array from item `i` on. */
  function ItemLines(v: Json, i: nat, level: nat): (r: seq<string>)
    requires v.JArray? && i <= |v.items|
    ensures |r| == |v.items| - i
    decreases v, 0, |v.items| - i
  {
    if i == |v.items| then []
    else [Indent(level) + Stringify(v.items[i], level)] + ItemLines(v, i + 1, level)
  }

  /** The member lines of an object from field `i` on. */
  function FieldLines(v: Json, i: nat, level: nat): (r: seq<string>)
    requires v.JObject? && i <= |v.fields|
    ensures |r| == |v.fields| - i
    decreases v, 0, |v.fields| - i
  {
    if i == |v.fields| then []
    else [MemberLine(v.fields[i].0, v.fields[i].1, level)] + FieldLines(v, i + 1, level)
  }

  /** One field of an object: the quoted key, a colon and the value. */
  function MemberLine(key: string, value: Json, level: nat): string
    decreases value, 2
  {
    Indent(level) + Quote(key) + ": " + Stringify(value, level)
  }

  /** The lines of string-valued fields from field `from` on hold no
      line break. */
  lemma {:induction false} FlatFieldLines(v: Json, from: nat)
    requires v.JObject? && from <= |v.fields|
    requires forall k :: from <= k < |v.fields| ==> v.fields[k].1.JString?
    ensures NoneContains(FieldLines(v, from, 1), '\n')
    decreases |v.fields| - from
  {
    if from < |v.fields| {
      var field := v.fields[from];
      var rest := FieldLines(v, from + 1, 1);
      FlatFieldLines(v, from + 1);
      FlatFieldLine(field.0, field.1.text);
      assert FieldLines(v, from, 1) == [MemberLine(field.0, field.1, 1)] + rest;
      NoneContainsCons(MemberLine(field.0, field.1, 1), rest, '\n');
    }
  }

  /** A flat object of string values spans one line per field plus its two
      braces: no value breaks a line. */
  lemma FlatObjectLines(fields: seq<(string, string)>)
    requires |fields| >= 1
    ensures var v := JObject(StringFields(fields));
      |Split(Stringify(v, 0), '\n')| == |fields| + 2
  {
    var v := JObject(StringFields(fields));
    var lines := FieldLines(v, 0, 1);
    FlatFieldLines(v, 0);
    assert Stringify(v, 0) == Bracketed("{", lines, "}", 0);
    BracketedLineCount("{", lines, "}");
  }

  /** Member lines without line breaks give one line each, plus the two
      bracket lines. */
  lemma BracketedLineCount(open: string, lines: seq<string>, close: string)
    requires |lines| >= 1 && NoneContains(lines, '\n')
    requires '\n' !in open && '\n' !in close
    ensures |Split(Bracketed(open, lines, close, 0), '\n')| == |lines| + 2
  {
    var ended := CommaEnded(lines);
    var parts := [open] + ended + [close];
    assert NoneContains(parts, '\n') by {
      forall i | 0 <= i < |parts| ensures '\n' !in parts[i] {
        if 1 <= i <= |ended| {
          assert parts[i] == ended[i - 1];
        }
      }
    }
    JoinBracketed(open, lines, close);
    SplitJoin(parts, '\n');
    assert [('\n')] == "\n";
  }

  /** A field with a string value stays on its line. */
  lemma FlatFieldLine(key: string, value: string)
    ensures '\n' !in MemberLine(key, JString(value), 1)
  {
    QuoteIsOneLine(key);
    QuoteIsOneLine(value);
    assert Indent(1) == "  ";
  }

  function StringFields(fields: seq<(string, string)>): (r: seq<(string, Json)>)
    ensures |r| == |fields|
    ensures forall i :: 0 <= i < |fields| ==> r[i] == (fields[i].0, JString(fields[i].1))
    decreases |fields|
  {
    if |fields| == 0 then [] else [(fields[0].0, JString(fields[0].1))] + StringFields(fields[1..])
  }

  /** Each line but the last, with the comma that separates it from the
      next. */
  function CommaEnded(lines: seq<string>): (r: seq<string>)
    requires |lines| >= 1
    ensures |r| == |lines|
    ensures forall i :: 0 <= i < |lines| - 1 ==> r[i] == lines[i] + ","
    ensures r[|lines| - 1] == lines[|lines| - 1]
    decreases |lines|
  {
    if |lines| == 1 then lines else [lines[0] + ","] + CommaEnded(lines[1..])
  }

  /** Joining by `,\n` is joining the comma-ended lines by `\n`. */
  lemma {:induction false} CommaJoin(lines: seq<string>)
    requires |lines| >= 1
    ensures Join(lines, ",\n") == Join(CommaEnded(lines), "\n")
    decreases |lines|
  {
    if |lines| > 1 {
      var x, tl := lines[0], lines[1..];
      var rest := CommaEnded(tl);
      var j := Join(rest, "\n");
      assert Join(tl, ",\n") == j by { CommaJoin(tl); }
      assert Join(lines, ",\n") == x + ",\n" + j;
      assert Join(CommaEnded(lines), "\n") == (x + ",") + "\n" + j by {
        assert CommaEnded(lines) == [x + ","] + rest;
        JoinCons(x + ",", rest, "\n");
      }
      assert x + ",\n" + j == (x + ",") + "\n" + j;
    }
  }

  /** The brackets and the member lines, as lines. */
  lemma JoinBracketed(open: string, lines: seq<string>, close: string)
    requires |lines| >= 1
    ensures Bracketed(open, lines, close, 0) == Join([open] + CommaEnded(lines) + [close], "\n")
  {
    var ended := CommaEnded(lines);
    var j := Join(lines, ",\n");
    var k := Join(ended, "\n");
    assert j == k by { CommaJoin(lines); }
    assert Bracketed(open, lines, close, 0) == open + "\n" + j + "\n" + close by {
      assert Indent(0) == "";
    }
    assert open + "\n" + k + "\n" + close == Join([open] + ended + [close], "\n") by {
      JoinBetween(open, ended, close, "\n");
    }
  }

  /** Parts between a first and a last one, all joined. */
  lemma JoinBetween(first: string, middle: seq<string>, last: string, sep: string)
    requires |middle| >= 1
    ensures first + sep + Join(middle, sep) + sep + last == Join([first] + middle + [last], sep)
  {
    var tail := middle + [last];
    JoinSnoc(middle, last, sep);
    JoinCons(first, tail, sep);
    WrapAssoc([first], middle, [last]);
    WrapAssoc(first + sep, Join(middle, sep), sep + last);
  }

  lemma WrapAssoc<T>(a: seq<T>, m: seq<T>, b: seq<T>)
    ensures a + m + b == a + (m + b)
  {
  }

  lemma AfterHead<T>(x: T, rest: seq<T>, k: nat)
    requires 1 <= k <= |rest|
    ensures ([x] + rest)[k] == rest[k - 1]
  {
  }

  lemma {:induction false} ItemLineAt(v: Json, from: nat, level: nat, i: nat)
    requires v.JArray? && from <= i < |v.items|
    ensures ItemLines(v, from, level)[i - from] == Indent(level) + Stringify(v.items[i], level)
    decreases i - from
  {
    var here := [Indent(level) + Stringify(v.items[from], level)];
    assert ItemLines(v, from, level) == here + ItemLines(v, from + 1, level);
    if from < i {
      ItemLineAt(v, from + 1, level, i);
    }
  }

  lemma {:induction false} FieldLineAt(v: Json, from: nat, level: nat, i: nat)
    requires v.JObject? && from <= i < |v.fields|
    ensures FieldLines(v, from, level)[i - from] == MemberLine(v.fields[i].0, v.fields[i].1, level)
    decreases i - from
  {
    var rest := FieldLines(v, from + 1, level);
    var line := MemberLine(v.fields[from].0, v.fields[from].1, level);
    FieldLinesUnfold(v, from, level);
    if from < i {
      FieldLineAt(v, from + 1, level, i);
      AfterHead(line, rest, i - from);
    } else {
      assert ([line] + rest)[0] == line;
    }
  }

  lemma FieldLinesUnfold(v: Json, from: nat, level: nat)
    requires v.JObject? && from < |v.fields|
    ensures FieldLines(v, from, level) == [MemberLine(v.fields[from].0, v.fields[from].1, level)] + FieldLines(v, from + 1, level)
  {
  }
}
