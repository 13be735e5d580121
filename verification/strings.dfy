/** The JavaScript string operations the extension relies on, on `seq<char>`:
    `trim`, `split` on one character, `join`, `includes`, `startsWith`,
    `toLowerCase` (ASCII) and the decimal rendering of a number. */
module Strings {

  import opened Wrappers

  /** JavaScript's `\s` class, which is also the set `String.prototype.trim`
      and `parseInt` skip. */
  predicate IsSpace(c: char) {
    var n := c as int;
    n == 0x09 || n == 0x0A || n == 0x0B || n == 0x0C || n == 0x0D || n == 0x20
    || n == 0xA0 || n == 0x1680 || (0x2000 <= n <= 0x200A) || n == 0x2028
    || n == 0x2029 || n == 0x202F || n == 0x205F || n == 0x3000 || n == 0xFEFF
  }

  /** The characters a regex `.` does not match. */
  predicate IsLineTerminator(c: char) {
    c == '\n' || c == '\r' || c as int == 0x2028 || c as int == 0x2029
  }

  /** Regex `\d`. */
  predicate IsDigit(c: char) { '0' <= c <= '9' }

  predicate IsUpper(c: char) { 'A' <= c <= 'Z' }

  predicate IsLetter(c: char) { 'a' <= c <= 'z' || IsUpper(c) }

  /** Regex `[a-zA-Z0-9]`. */
  predicate IsAlnum(c: char) { IsLetter(c) || IsDigit(c) }

  /** Regex `\w` (non-Unicode mode): `[A-Za-z0-9_]`. */
  predicate IsWordChar(c: char) { IsAlnum(c) || c == '_' }

  predicate AllSpace(s: string) { forall i :: 0 <= i < |s| ==> IsSpace(s[i]) }

  predicate AllDigits(s: string) { forall i :: 0 <= i < |s| ==> IsDigit(s[i]) }

  predicate AllWordChars(s: string) { forall i :: 0 <= i < |s| ==> IsWordChar(s[i]) }

  /** A string `trim` leaves unchanged. */
  predicate IsTrimmed(s: string) {
    s == [] || (!IsSpace(s[0]) && !IsSpace(s[|s| - 1]))
  }

  // ---------------------------------------------------------------------------
  // Prefixes and substrings

  predicate StartsWith(s: string, p: string) {
    |p| <= |s| && s[..|p|] == p
  }

  /** A header followed by a body starts with the header, and the body is
      what follows it. */
  lemma HeadedBody(header: string, body: string)
    ensures StartsWith(header + body, header) && (header + body)[|header|..] == body
  {
  }

  predicate EndsWith(s: string, p: string) {
    |p| <= |s| && s[|s| - |p|..] == p
  }

  predicate OccursAt(s: string, pat: string, i: nat) {
    i + |pat| <= |s| && s[i..i + |pat|] == pat
  }

  /** `s.includes(pat)`. */
  predicate Contains(s: string, pat: string)
    decreases |s|
  {
    StartsWith(s, pat) || (|s| > 0 && Contains(s[1..], pat))
  }

  lemma {:induction false} ContainsAt(s: string, pat: string, i: nat)
    requires OccursAt(s, pat, i)
    ensures Contains(s, pat)
    decreases i
  {
    if i > 0 {
      assert OccursAt(s[1..], pat, i - 1) by {
        assert s[1..][i - 1..i - 1 + |pat|] == s[i..i + |pat|];
      }
      ContainsAt(s[1..], pat, i - 1);
    } else {
      assert s[..|pat|] == s[0..0 + |pat|];
    }
  }

  lemma {:induction false} ContainsWitness(s: string, pat: string) returns (i: nat)
    requires Contains(s, pat)
    ensures OccursAt(s, pat, i)
    decreases |s|
  {
    if StartsWith(s, pat) {
      i := 0;
      assert s[0..0 + |pat|] == s[..|pat|];
    } else {
      var j := ContainsWitness(s[1..], pat);
      i := j + 1;
      assert s[i..i + |pat|] == s[1..][j..j + |pat|];
    }
  }

  /** Appending text never removes an occurrence, on either side. */
  lemma ContainsInConcat(a: string, b: string, pat: string)
    ensures Contains(a, pat) ==> Contains(a + b, pat)
    ensures Contains(b, pat) ==> Contains(a + b, pat)
  {
    if Contains(a, pat) {
      var i := ContainsWitness(a, pat);
      assert (a + b)[i..i + |pat|] == a[i..i + |pat|];
      ContainsAt(a + b, pat, i);
    }
    if Contains(b, pat) {
      var i := ContainsWitness(b, pat);
      assert (a + b)[|a| + i..|a| + i + |pat|] == b[i..i + |pat|];
      ContainsAt(a + b, pat, |a| + i);
    }
  }

  /** A text placed between two others occurs in the result. */
  lemma ContainsMiddle(a: string, t: string, b: string)
    ensures Contains(a + (t + b), t)
  {
    ContainsAt(t, t, 0);
    ContainsInConcat(t, b, t);
    ContainsInConcat(a, t + b, t);
  }

  /** Where the three parts of `a + (m + c)` sit. */
  lemma Sandwich(a: string, m: string, c: string)
    ensures var s := a + (m + c);
      && |s| == |a| + |m| + |c|
      && s[..|a|] == a && s[|a|..|a| + |m|] == m && s[|a| + |m|..] == c
  {
    var s := a + (m + c);
    assert s[|a|..] == m + c;
  }

  /** An occurrence stays where it is when text is appended, and moves by
      the prefix's length when text is prepended. */
  lemma OccursInConcat(a: string, b: string, pat: string, i: nat)
    ensures OccursAt(a, pat, i) ==> OccursAt(a + b, pat, i)
    ensures OccursAt(b, pat, i) ==> OccursAt(a + b, pat, |a| + i)
  {
    if OccursAt(a, pat, i) {
      assert (a + b)[i..i + |pat|] == a[i..i + |pat|];
    }
    if OccursAt(b, pat, i) {
      assert (a + b)[|a| + i..|a| + i + |pat|] == b[i..i + |pat|];
    }
  }

  /** A text lacking one of the pattern's characters cannot contain it. */
  lemma MissingCharNotContained(s: string, pat: string, c: char)
    requires c in pat && c !in s
    ensures !Contains(s, pat)
  {
    if Contains(s, pat) {
      var i := ContainsWitness(s, pat);
    }
  }

  /** `s.indexOf(pat, from)`: the leftmost occurrence at or after `from`. */
  function IndexOf(s: string, pat: string, from: nat): (r: Option<nat>)
    requires from <= |s|
    ensures r.Some? ==> from <= r.value && OccursAt(s, pat, r.value)
    ensures r.Some? ==> forall k: nat :: from <= k < r.value ==> !OccursAt(s, pat, k)
    ensures r.None? ==> forall k: nat :: from <= k ==> !OccursAt(s, pat, k)
    decreases |s| - from
  {
    if OccursAt(s, pat, from) then Some(from)
    else if from == |s| then None
    else IndexOf(s, pat, from + 1)
  }

  /** `includes` and `indexOf` agree. */
  lemma ContainsIffFound(s: string, pat: string)
    ensures Contains(s, pat) <==> IndexOf(s, pat, 0).Some?
  {
    if Contains(s, pat) {
      var i := ContainsWitness(s, pat);
    }
    if IndexOf(s, pat, 0).Some? {
      ContainsAt(s, pat, IndexOf(s, pat, 0).value);
    }
  }

  // ---------------------------------------------------------------------------
  // Trimming

  /** End of the run of characters satisfying `p` that starts at `i`: the
      scanner behind a greedy `p*` in a regex. */
  function Span(s: string, i: nat, p: char -> bool): (j: nat)
    requires i <= |s|
    ensures i <= j <= |s|
    ensures forall k :: i <= k < j ==> p(s[k])
    ensures j == |s| || !p(s[j])
    decreases |s| - i
  {
    if i < |s| && p(s[i]) then Span(s, i + 1, p) else i
  }

  /** End of the whitespace run that starts at `i` (regex `\s*`). */
  function SkipSpaces(s: string, i: nat): (j: nat)
    requires i <= |s|
    ensures i <= j <= |s|
    ensures forall k :: i <= k < j ==> IsSpace(s[k])
    ensures j == |s| || !IsSpace(s[j])
  {
    Span(s, i, IsSpace)
  }

  /** Start of the whitespace run that ends at `j`, never below `lo`. */
  function SkipSpacesBack(s: string, j: nat, lo: nat): (k: nat)
    requires lo <= j <= |s|
    ensures lo <= k <= j
    ensures forall m :: k <= m < j ==> IsSpace(s[m])
    ensures k == lo || !IsSpace(s[k - 1])
    decreases j
  {
    if j > lo && IsSpace(s[j - 1]) then SkipSpacesBack(s, j - 1, lo) else j
  }

  /** `s.trim()`: drops the leading and trailing whitespace runs. */
  function Trim(s: string): (r: string)
    ensures IsTrimmed(r)
    ensures |r| <= |s|
  {
    var a := SkipSpaces(s, 0);
    var b := SkipSpacesBack(s, |s|, a);
    s[a..b]
  }

  /** Trimming removes exactly whitespace: what is left is a slice of `s`
      with only whitespace around it. */
  lemma TrimSlice(s: string) returns (a: nat, b: nat)
    ensures a <= b <= |s| && Trim(s) == s[a..b]
    ensures AllSpace(s[..a]) && AllSpace(s[b..])
  {
    a := SkipSpaces(s, 0);
    b := SkipSpacesBack(s, |s|, a);
  }

  lemma TrimmedIsFixpoint(s: string)
    requires IsTrimmed(s)
    ensures Trim(s) == s
  {
  }

  lemma TrimIdempotent(s: string)
    ensures Trim(Trim(s)) == Trim(s)
  {
    TrimmedIsFixpoint(Trim(s));
  }

  /** `s.trim()` is empty exactly when `s` is blank. */
  lemma TrimEmptyIff(s: string)
    ensures Trim(s) == [] <==> AllSpace(s)
  {
    var a, b := TrimSlice(s);
    if Trim(s) == [] {
      assert a == b;
      forall i | 0 <= i < |s| ensures IsSpace(s[i]) {
        if i < a { assert s[..a][i] == s[i]; } else { assert s[b..][i - b] == s[i]; }
      }
    }
  }

  /** Whitespace added around a trimmed string is what `trim` takes away. */
  lemma TrimSurrounded(pre: string, x: string, post: string)
    requires AllSpace(pre) && AllSpace(post) && IsTrimmed(x)
    ensures Trim(pre + x + post) == x
  {
    var s := pre + x + post;
    if x == [] {
      assert AllSpace(s);
      TrimEmptyIff(s);
    } else {
      assert SkipSpaces(s, |pre|) == |pre|;
      SpanFrom(s, 0, |pre|, IsSpace);
      assert SkipSpacesBack(s, |s|, |pre|) == |pre| + |x| by {
        SkipBackFrom(s, |s|, |pre| + |x|, |pre|);
      }
      assert s[|pre|..|pre| + |x|] == x;
    }
  }

  /** Whitespace in front of a string makes no difference to its trim. */
  lemma TrimIgnoresLeadingSpace(pre: string, y: string)
    requires AllSpace(pre)
    ensures Trim(pre + y) == Trim(y)
  {
    var a, b := TrimSlice(y);
    SpaceBeforeSlice(pre, y, a, b);
  }

  /** Whitespace in front of a string whose middle slice is surrounded by
      whitespace trims to that slice. */
  lemma SpaceBeforeSlice(pre: string, y: string, a: nat, b: nat)
    requires a <= b <= |y| && IsTrimmed(y[a..b])
    requires AllSpace(pre) && AllSpace(y[..a]) && AllSpace(y[b..])
    ensures Trim(pre + y) == y[a..b]
  {
    var x := y[a..b];
    var trail := y[b..];
    var front := pre + y[..a];
    AllSpaceConcat(pre, y[..a]);
    assert pre + y == front + x + trail;
    TrimSurrounded(front, x, trail);
  }

  lemma AllSpaceConcat(a: string, b: string)
    requires AllSpace(a) && AllSpace(b)
    ensures AllSpace(a + b)
  {
    forall k | 0 <= k < |a + b| ensures IsSpace((a + b)[k]) {
      if k >= |a| { assert (a + b)[k] == b[k - |a|]; }
    }
  }

  /** A run may be measured from any point inside it. */
  lemma {:induction false} SpanFrom(s: string, i: nat, j: nat, p: char -> bool)
    requires i <= j <= |s|
    requires forall k :: i <= k < j ==> p(s[k])
    ensures Span(s, i, p) == Span(s, j, p)
    decreases j - i
  {
    if i < j { SpanFrom(s, i + 1, j, p); }
  }

  lemma {:induction false} SkipBackFrom(s: string, j: nat, k: nat, lo: nat)
    requires lo <= k <= j <= |s|
    requires forall m :: k <= m < j ==> IsSpace(s[m])
    ensures SkipSpacesBack(s, j, lo) == SkipSpacesBack(s, k, lo)
    decreases j - k
  {
    if k < j { SkipBackFrom(s, j - 1, k, lo); }
  }

  // ---------------------------------------------------------------------------
  // Splitting and joining on one separator character

  /** `s.split(sep)` for a one-character separator: never empty, and empty
      pieces are kept. */
  function Split(s: string, sep: char): (parts: seq<string>)
    ensures |parts| >= 1
    decreases |s|
  {
    if |s| == 0 then [""]
    else
      var rest := Split(s[1..], sep);
      if s[0] == sep then [""] + rest
      else [[s[0]] + rest[0]] + rest[1..]
  }

  /** `parts.join(sep)`. */
  function Join(parts: seq<string>, sep: string): string
    decreases |parts|
  {
    if |parts| == 0 then ""
    else if |parts| == 1 then parts[0]
    else parts[0] + sep + Join(parts[1..], sep)
  }

  predicate NoneContains(parts: seq<string>, c: char) {
    forall i :: 0 <= i < |parts| ==> c !in parts[i]
  }

  lemma NoneContainsSlice(parts: seq<string>, a: nat, b: nat, c: char)
    requires a <= b <= |parts| && NoneContains(parts, c)
    ensures NoneContains(parts[a..b], c)
  {
    forall i | 0 <= i < b - a ensures c !in parts[a..b][i] {
      assert parts[a..b][i] == parts[a + i];
    }
  }

  lemma NoneContainsConcat(a: seq<string>, b: seq<string>, c: char)
    requires NoneContains(a, c) && NoneContains(b, c)
    ensures NoneContains(a + b, c)
  {
    forall i | 0 <= i < |a + b| ensures c !in (a + b)[i] {
      if i >= |a| { assert (a + b)[i] == b[i - |a|]; }
    }
  }

  lemma NoneContainsCons(first: string, rest: seq<string>, c: char)
    requires c !in first && NoneContains(rest, c)
    ensures NoneContains([first] + rest, c)
  {
    var parts := [first] + rest;
    forall i | 0 <= i < |parts| ensures c !in parts[i] {
      if i > 0 { assert parts[i] == rest[i - 1]; }
    }
  }

  lemma {:induction false} SplitPiecesLackSeparator(s: string, sep: char)
    ensures NoneContains(Split(s, sep), sep)
    decreases |s|
  {
    if |s| > 0 { SplitPiecesLackSeparator(s[1..], sep); }
  }

  lemma {:induction false} JoinCons(x: string, rest: seq<string>, sep: string)
    requires |rest| >= 1
    ensures Join([x] + rest, sep) == x + sep + Join(rest, sep)
  {
    assert ([x] + rest)[1..] == rest;
  }

  /** Joining the pieces of a split gives back the text. */
  lemma {:induction false} JoinSplit(s: string, sep: char)
    ensures Join(Split(s, sep), [sep]) == s
    decreases |s|
  {
    if |s| > 0 {
      var rest := Split(s[1..], sep);
      JoinSplit(s[1..], sep);
      if s[0] == sep {
        JoinCons("", rest, [sep]);
        assert s == [sep] + s[1..];
      } else {
        if |rest| == 1 {
          assert s == [s[0]] + s[1..];
        } else {
          JoinCons(rest[0], rest[1..], [sep]);
          assert rest == [rest[0]] + rest[1..];
          JoinCons([s[0]] + rest[0], rest[1..], [sep]);
          assert s == [s[0]] + s[1..];
        }
      }
    }
  }

  lemma {:induction false} SplitNoSeparator(s: string, sep: char)
    requires sep !in s
    ensures Split(s, sep) == [s]
    decreases |s|
  {
    if |s| > 0 {
      assert sep !in s[1..];
      SplitNoSeparator(s[1..], sep);
      assert s[0] != sep;
      assert [s[0]] + s[1..] == s;
    }
  }

  lemma {:induction false} SplitAtSeparator(a: string, sep: char, b: string)
    requires sep !in a
    ensures Split(a + [sep] + b, sep) == [a] + Split(b, sep)
    decreases |a|
  {
    var s := a + [sep] + b;
    if |a| == 0 {
      assert s[1..] == b;
    } else {
      assert s[1..] == a[1..] + [sep] + b;
      assert sep !in a[1..];
      SplitAtSeparator(a[1..], sep, b);
      assert [a[0]] + a[1..] == a;
    }
  }

  /** Splitting at a separator splits each side on its own. */
  lemma {:induction false} SplitAppend(a: string, sep: char, b: string)
    ensures Split(a + [sep] + b, sep) == Split(a, sep) + Split(b, sep)
    decreases |a|
  {
    if |a| == 0 {
      assert a + [sep] + b == [sep] + b;
      SplitConsSep(sep, b, sep, Split(b, sep));
      assert Split(a, sep) == [""];
    } else {
      SplitAppend(a[1..], sep, b);
      SplitAppendStep(a[0], a[1..], sep, b);
      assert a == [a[0]] + a[1..];
    }
  }

  /** The step of `SplitAppend`: the claim for `[c] + u` from the claim for
      `u`. */
  lemma SplitAppendStep(c: char, u: string, sep: char, b: string)
    requires Split(u + [sep] + b, sep) == Split(u, sep) + Split(b, sep)
    ensures Split([c] + u + [sep] + b, sep) == Split([c] + u, sep) + Split(b, sep)
  {
    var t := u + [sep] + b;
    assert [c] + u + [sep] + b == [c] + t;
    ConsAppend(c, sep, t, u, Split(u, sep), Split(b, sep));
  }

  /** Putting one character in front of two texts whose pieces differ by a
      common tail `rb` keeps that difference. */
  lemma ConsAppend(c: char, sep: char, t: string, u: string, ru: seq<string>, rb: seq<string>)
    requires Split(t, sep) == ru + rb && Split(u, sep) == ru
    ensures Split([c] + t, sep) == Split([c] + u, sep) + rb
  {
    if c != sep {
      SplitConsChar(c, t, sep, ru + rb);
      SplitConsChar(c, u, sep, ru);
      assert (ru + rb)[0] == ru[0] && (ru + rb)[1..] == ru[1..] + rb;
      PiecesAppend([c] + ru[0], ru[1..], rb);
    } else {
      SplitConsSep(c, t, sep, ru + rb);
      SplitConsSep(c, u, sep, ru);
      PiecesAppend("", ru, rb);
    }
  }

  /** One step of `Split` over a first character that is not the separator:
      it joins the first piece of the rest. */
  lemma SplitConsChar(c: char, u: string, sep: char, rest: seq<string>)
    requires c != sep && Split(u, sep) == rest
    ensures |rest| >= 1 && Split([c] + u, sep) == [[c] + rest[0]] + rest[1..]
  {
    var s := [c] + u;
    assert s[0] == c && s[1..] == u;
  }

  /** One step of `Split` over a separator: it starts an empty piece. */
  lemma SplitConsSep(c: char, u: string, sep: char, rest: seq<string>)
    requires c == sep && Split(u, sep) == rest
    ensures Split([c] + u, sep) == [""] + rest
  {
    var s := [c] + u;
    assert s[0] == c && s[1..] == u;
  }

  lemma PiecesAppend(h: string, r: seq<string>, rb: seq<string>)
    ensures [h] + (r + rb) == ([h] + r) + rb
  {
  }

  /** Text without the separator in front of a split joins its first
      piece. */
  lemma {:induction false} SplitAfterPrefix(pre: string, s: string, sep: char)
    requires sep !in pre
    ensures Split(pre + s, sep) == [pre + Split(s, sep)[0]] + Split(s, sep)[1..]
    decreases |pre|
  {
    var parts := Split(s, sep);
    if |pre| > 0 {
      var u := pre + s;
      assert u[0] == pre[0] && u[1..] == pre[1..] + s;
      assert sep !in pre[1..];
      SplitAfterPrefix(pre[1..], s, sep);
      var rest := Split(pre[1..] + s, sep);
      assert rest == [pre[1..] + parts[0]] + parts[1..];
      assert Split(u, sep) == [[pre[0]] + rest[0]] + rest[1..];
      assert [pre[0]] + (pre[1..] + parts[0]) == pre + parts[0];
    } else {
      assert pre + s == s && pre + parts[0] == parts[0];
      assert parts == [parts[0]] + parts[1..];
    }
  }

  /** Splitting a join gives back the pieces, when no piece holds the
      separator. */
  lemma {:induction false} SplitJoin(parts: seq<string>, sep: char)
    requires |parts| >= 1
    requires NoneContains(parts, sep)
    ensures Split(Join(parts, [sep]), sep) == parts
    decreases |parts|
  {
    if |parts| == 1 {
      SplitNoSeparator(parts[0], sep);
    } else {
      SplitJoin(parts[1..], sep);
      assert parts[0] + [sep] + Join(parts[1..], [sep]) == Join(parts, [sep]);
      SplitAtSeparator(parts[0], sep, Join(parts[1..], [sep]));
      assert [parts[0]] + parts[1..] == parts;
    }
  }

  /** A join starts with its first part. */
  lemma JoinStart(parts: seq<string>, sep: string)
    requires |parts| >= 1
    ensures StartsWith(Join(parts, sep), parts[0])
  {
  }

  /** A join ends with its last part. */
  lemma {:induction false} JoinEnd(parts: seq<string>, sep: string)
    requires |parts| >= 1
    ensures EndsWith(Join(parts, sep), parts[|parts| - 1])
    decreases |parts|
  {
    if |parts| > 1 {
      JoinEnd(parts[1..], sep);
    }
  }

  /** Appending a part adds a separator and the part. */
  lemma {:induction false} JoinSnoc(parts: seq<string>, last: string, sep: string)
    requires |parts| >= 1
    ensures Join(parts + [last], sep) == Join(parts, sep) + sep + last
    decreases |parts|
  {
    if |parts| > 1 {
      assert (parts + [last])[1..] == parts[1..] + [last];
      JoinSnoc(parts[1..], last, sep);
    }
  }

  /** A string's last character is its suffix's last character. */
  lemma LastCharOfSuffix(s: string, t: string)
    requires EndsWith(s, t) && |t| >= 1
    ensures s[|s| - 1] == t[|t| - 1]
  {
    assert s[|s| - |t|..][|t| - 1] == s[|s| - 1];
  }

  /** A join is trimmed when it starts and ends with non-space characters. */
  lemma JoinTrimmed(parts: seq<string>, sep: string)
    requires |parts| >= 1 && |parts[0]| >= 1 && !IsSpace(parts[0][0])
    requires var last := parts[|parts| - 1]; |last| >= 1 && !IsSpace(last[|last| - 1])
    ensures IsTrimmed(Join(parts, sep))
  {
    JoinStart(parts, sep);
    JoinEnd(parts, sep);
    var j := Join(parts, sep);
    assert j[0] == j[..|parts[0]|][0];
    LastCharOfSuffix(j, parts[|parts| - 1]);
  }

  // ---------------------------------------------------------------------------
  // Reading back a ", "-joined list

  /** The items of a list printed with `join(', ')`: the pieces between
      commas, each after the first with its one leading space removed. */
  function CommaItems(body: string): (items: seq<string>)
    ensures |items| == |Split(body, ',')|
  {
    var pieces := Split(body, ',');
    seq(|pieces|, i requires 0 <= i < |pieces| =>
      if i > 0 && |pieces[i]| > 0 && pieces[i][0] == ' ' then pieces[i][1..] else pieces[i])
  }

  /** Each part with `p` in front. */
  function Prefixed(parts: seq<string>, p: string): (r: seq<string>)
    ensures |r| == |parts|
    ensures forall i :: 0 <= i < |parts| ==> r[i] == p + parts[i]
  {
    seq(|parts|, i requires 0 <= i < |parts| => p + parts[i])
  }

  /** Joining prefixed parts on `sep` is the prefix followed by the join on
      `sep + p`. */
  lemma {:induction false} PrefixedJoin(parts: seq<string>, p: string, sep: string)
    requires |parts| >= 1
    ensures Join(Prefixed(parts, p), sep) == p + Join(parts, sep + p)
    decreases |parts|
  {
    if |parts| > 1 {
      var first, rest := parts[0], parts[1..];
      assert parts == [first] + rest;
      assert Prefixed(parts, p) == [p + first] + Prefixed(rest, p);
      calc {
        Join(Prefixed(parts, p), sep);
        { JoinCons(p + first, Prefixed(rest, p), sep); }
        p + first + sep + Join(Prefixed(rest, p), sep);
        { PrefixedJoin(rest, p, sep); }
        p + first + sep + (p + Join(rest, sep + p));
        { JoinCons(first, rest, sep + p); }
        p + Join(parts, sep + p);
      }
    }
  }

  /** Joining two non-empty lists is joining each and putting `sep` between. */
  lemma {:induction false} JoinConcat(a: seq<string>, b: seq<string>, sep: string)
    requires |a| >= 1 && |b| >= 1
    ensures Join(a + b, sep) == Join(a, sep) + sep + Join(b, sep)
    decreases |a|
  {
    if |a| == 1 {
      assert a + b == [a[0]] + b;
      JoinCons(a[0], b, sep);
    } else {
      var rest := a[1..];
      assert a == [a[0]] + rest;
      assert a + b == [a[0]] + (rest + b);
      calc {
        Join(a + b, sep);
        { JoinCons(a[0], rest + b, sep); }
        a[0] + sep + Join(rest + b, sep);
        { JoinConcat(rest, b, sep); }
        a[0] + sep + (Join(rest, sep) + sep + Join(b, sep));
        { JoinCons(a[0], rest, sep); }
        Join(a, sep) + sep + Join(b, sep);
      }
    }
  }

  /** A join on `sep + p` is the `sep` join of the first part and the
      prefixed rest. */
  lemma JoinHeadPrefixed(parts: seq<string>, p: string, sep: string)
    requires |parts| >= 1
    ensures Join(parts, sep + p) == Join([parts[0]] + Prefixed(parts[1..], p), sep)
  {
    var first, tail := parts[0], parts[1..];
    if |tail| == 0 {
      assert [first] + Prefixed(tail, p) == [first];
    } else {
      calc {
        Join(parts, sep + p);
        { assert parts == [first] + tail; JoinCons(first, tail, sep + p); }
        first + (sep + p) + Join(tail, sep + p);
        first + sep + (p + Join(tail, sep + p));
        { PrefixedJoin(tail, p, sep); }
        first + sep + Join(Prefixed(tail, p), sep);
        { JoinCons(first, Prefixed(tail, p), sep); }
        Join([first] + Prefixed(tail, p), sep);
      }
    }
  }

  /** A ", " join is the "," join of the first part and the spaced rest. */
  lemma CommaSpaceJoin(parts: seq<string>)
    requires |parts| >= 1
    ensures Join(parts, ", ") == Join([parts[0]] + Prefixed(parts[1..], " "), ",")
  {
    assert Join(parts, ", ") == Join(parts, "," + " ") by {
      assert "," + " " == ", ";
    }
    JoinHeadPrefixed(parts, " ", ",");
  }


  /** A non-empty list of comma-free items printed with `join(', ')` reads
      back as the same items. */
  lemma CommaItemsJoin(parts: seq<string>)
    requires |parts| >= 1 && NoneContains(parts, ',')
    ensures CommaItems(Join(parts, ", ")) == parts
  {
    var spaced := [parts[0]] + Prefixed(parts[1..], " ");
    SpacedNoComma(parts);
    CommaSpaceJoin(parts);
    SplitJoin(spaced, ',');
    SpacedItems(Join(parts, ", "), parts);
  }

  lemma SpacedNoComma(parts: seq<string>)
    requires |parts| >= 1 && NoneContains(parts, ',')
    ensures NoneContains([parts[0]] + Prefixed(parts[1..], " "), ',')
  {
    var spaced := [parts[0]] + Prefixed(parts[1..], " ");
    forall i | 0 <= i < |spaced| ensures ',' !in spaced[i] {
      if i > 0 {
        assert spaced[i] == " " + parts[i];
      }
    }
  }

  /** Pieces that are the first part and the spaced rest read back as the parts. */
  lemma SpacedItems(body: string, parts: seq<string>)
    requires |parts| >= 1 && Split(body, ',') == [parts[0]] + Prefixed(parts[1..], " ")
    ensures CommaItems(body) == parts
  {
    var pieces := Split(body, ',');
    forall i | 0 <= i < |parts| ensures CommaItems(body)[i] == parts[i] {
      if i > 0 {
        assert pieces[i] == " " + parts[i];
      }
    }
  }

  /** The empty list prints as the empty string, which reads back as one
      empty item. */
  lemma CommaItemsEmpty()
    ensures Join([], ", ") == "" && CommaItems("") == [""]
  {
  }

  // ---------------------------------------------------------------------------
  // Case and numbers

  function LowerChar(c: char): char {
    if IsUpper(c) then (c as int + 32) as char else c
  }

  /** `s.toLowerCase()` on ASCII letters; every other character is kept. */
  function ToLower(s: string): (r: string)
    ensures |r| == |s|
    ensures forall i :: 0 <= i < |s| ==> r[i] == LowerChar(s[i])
  {
    seq(|s|, i requires 0 <= i < |s| => LowerChar(s[i]))
  }

  function DigitChar(d: nat): char
    requires d < 10
  {
    ('0' as int + d) as char
  }

  function DigitValue(c: char): nat
    requires IsDigit(c)
  {
    c as int - '0' as int
  }

  /** The value of a non-empty run of decimal digits. */
  function DecimalValue(s: string): nat
    requires AllDigits(s)
    decreases |s|
  {
    if |s| == 0 then 0
    else 10 * DecimalValue(s[..|s| - 1]) + DigitValue(s[|s| - 1])
  }

  /** `${n}` for a natural number. */
  function NatToString(n: nat): (r: string)
    ensures |r| >= 1 && AllDigits(r)
    ensures n > 0 ==> r[0] != '0'
    decreases n
  {
    if n < 10 then [DigitChar(n)] else NatToString(n / 10) + [DigitChar(n % 10)]
  }

  /** Reading back a rendered number gives the number. */
  lemma {:induction false} NatToStringRoundTrip(n: nat)
    ensures DecimalValue(NatToString(n)) == n
    decreases n
  {
    if n >= 10 {
      NatToStringRoundTrip(n / 10);
      var r := NatToString(n);
      assert r[..|r| - 1] == NatToString(n / 10);
    }
  }
}
