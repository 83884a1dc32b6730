/** The string helpers of web/client/scripts/util.js: HTML and string-literal
    escaping, padding, substring and prefix tests, and the relative-path
    check. */
module TextUtil {
  import opened Js

  /** What `htmlEscape` puts in place of one character: the entity from its
      table, nothing for a carriage return, the character itself otherwise. */
  function HtmlEscapeChar(c: char): string
  {
    if c == '&' then "&amp;"
    else if c == '<' then "&lt;"
    else if c == '>' then "&gt;"
    else if c == '\'' then "&apos;"
    else if c == '"' then "&quot;"
    else if c == '\n' then "<br>"
    else if c == '\r' then ""
    else if c == ' ' then "&nbsp;"
    else [c]
  }

  /** The characters `htmlEscape` never lets through. */
  predicate IsHtmlSpecial(c: char) {
    c == '<' || c == '>' || c == '\'' || c == '"' || c == '\n' || c == '\r' || c == ' '
  }

  /** `htmlEscape(txt)`: every character replaced by `HtmlEscapeChar`. The
      result holds no quote, angle bracket, space or line break except inside
      the `<br>` tags it writes for newlines. */
  function HtmlEscape(txt: string): (r: string)
    ensures '\n' !in txt ==> forall i :: 0 <= i < |r| ==> !IsHtmlSpecial(r[i])
    ensures forall i :: 0 <= i < |r| ==> r[i] != '\r' && r[i] != ' ' && r[i] != '"' && r[i] != '\''
  {
    if txt == [] then ""
    else
      var e, rest := HtmlEscapeChar(txt[0]), HtmlEscape(txt[1..]);
      EscapedCharSafe(txt[0]);
      assert '\n' !in txt ==> '\n' !in txt[1..] && txt[0] != '\n';
      e + rest
  }

  /** The replacement of one character holds no quote, space or carriage
      return, and none of the special characters unless it is the `<br>` of
      a newline. */
  lemma EscapedCharSafe(c: char)
    ensures c != '\n' ==> forall i :: 0 <= i < |HtmlEscapeChar(c)| ==> !IsHtmlSpecial(HtmlEscapeChar(c)[i])
    ensures forall i :: 0 <= i < |HtmlEscapeChar(c)| ==>
      HtmlEscapeChar(c)[i] != '\r' && HtmlEscapeChar(c)[i] != ' ' && HtmlEscapeChar(c)[i] != '"' && HtmlEscapeChar(c)[i] != '\''
  {
  }

  /** Reads back the entities `htmlEscape` writes; any other text stays. */
  function HtmlUnescape(s: string): string
  {
    if s == [] then ""
    else if HasPrefix(s, "&amp;") then "&" + HtmlUnescape(s[5..])
    else if HasPrefix(s, "&lt;") then "<" + HtmlUnescape(s[4..])
    else if HasPrefix(s, "&gt;") then ">" + HtmlUnescape(s[4..])
    else if HasPrefix(s, "&apos;") then "'" + HtmlUnescape(s[6..])
    else if HasPrefix(s, "&quot;") then "\"" + HtmlUnescape(s[6..])
    else if HasPrefix(s, "<br>") then "\n" + HtmlUnescape(s[4..])
    else if HasPrefix(s, "&nbsp;") then " " + HtmlUnescape(s[6..])
    else [s[0]] + HtmlUnescape(s[1..])
  }

  /** `s` begins with the literal `lit`. */
  predicate HasPrefix(s: string, lit: string) {
    |lit| <= |s| && s[..|lit|] == lit
  }

  lemma NotPrefix(s: string, lit: string, k: nat)
    requires k < |lit| && k < |s| && s[k] != lit[k]
    ensures !HasPrefix(s, lit)
  {
  }

  lemma HtmlUnescapeChar(c: char, rest: string)
    requires c != '\r'
    ensures HtmlUnescape(HtmlEscapeChar(c) + rest) == [c] + HtmlUnescape(rest)
  {
    var e := HtmlEscapeChar(c);
    var s := e + rest;
    assert s[..|e|] == e && s[|e|..] == rest;
    if c == '&' {
      assert HasPrefix(s, "&amp;");
    } else if c == '<' {
      NotPrefix(s, "&amp;", 1);
      assert HasPrefix(s, "&lt;");
    } else if c == '>' {
      NotPrefix(s, "&amp;", 1);
      NotPrefix(s, "&lt;", 1);
      assert HasPrefix(s, "&gt;");
    } else if c == '\'' {
      NotPrefix(s, "&amp;", 2);
      NotPrefix(s, "&lt;", 1);
      NotPrefix(s, "&gt;", 1);
      assert HasPrefix(s, "&apos;");
    } else if c == '"' {
      NotPrefix(s, "&amp;", 1);
      NotPrefix(s, "&lt;", 1);
      NotPrefix(s, "&gt;", 1);
      NotPrefix(s, "&apos;", 1);
      assert HasPrefix(s, "&quot;");
    } else if c == '\n' {
      NotPrefix(s, "&amp;", 0);
      NotPrefix(s, "&lt;", 0);
      NotPrefix(s, "&gt;", 0);
      NotPrefix(s, "&apos;", 0);
      NotPrefix(s, "&quot;", 0);
      assert HasPrefix(s, "<br>");
    } else if c == ' ' {
      NotPrefix(s, "&amp;", 1);
      NotPrefix(s, "&lt;", 1);
      NotPrefix(s, "&gt;", 1);
      NotPrefix(s, "&apos;", 1);
      NotPrefix(s, "&quot;", 1);
      NotPrefix(s, "<br>", 0);
      assert HasPrefix(s, "&nbsp;");
    } else {
      assert s[0] == c;
      NotPrefix(s, "&amp;", 0);
      NotPrefix(s, "&lt;", 0);
      NotPrefix(s, "&gt;", 0);
      NotPrefix(s, "&apos;", 0);
      NotPrefix(s, "&quot;", 0);
      NotPrefix(s, "<br>", 0);
      NotPrefix(s, "&nbsp;", 0);
    }
  }

  /** Escaping loses only carriage returns: text without them reads back whole. */
  lemma {:induction false} HtmlEscapeRoundTrip(txt: string)
    requires '\r' !in txt
    ensures HtmlUnescape(HtmlEscape(txt)) == txt
  {
    if txt != [] {
      HtmlUnescapeChar(txt[0], HtmlEscape(txt[1..]));
      HtmlEscapeRoundTrip(txt[1..]);
    }
  }

  /** What `stringEscape` puts in place of one character. */
  function StringEscapeChar(c: char): string
  {
    if c == '\n' then "\\n"
    else if c == '\r' then "\\r"
    else if c == '"' || c == '\'' || c == '\\' then ['\\', c]
    else [c]
  }

  /** `stringEscape(txt)`: make `txt` safe inside a quoted string literal. */
  function StringEscape(txt: string): (r: string)
    ensures forall i :: 0 <= i < |r| ==> r[i] != '\n' && r[i] != '\r'
    ensures |r| >= |txt|
  {
    if txt == [] then "" else StringEscapeChar(txt[0]) + StringEscape(txt[1..])
  }

  /** Reads a string literal body back: a backslash escapes the next character. */
  function StringUnescape(s: string): string
  {
    if s == [] then ""
    else if s[0] == '\\' && |s| >= 2 then
      (if s[1] == 'n' then "\n" else if s[1] == 'r' then "\r" else [s[1]]) + StringUnescape(s[2..])
    else [s[0]] + StringUnescape(s[1..])
  }

  lemma StringUnescapeChar(c: char, rest: string)
    ensures StringUnescape(StringEscapeChar(c) + rest) == [c] + StringUnescape(rest)
  {
    var s := StringEscapeChar(c) + rest;
    if c == '\n' || c == '\r' || c == '"' || c == '\'' || c == '\\' {
      assert s[0] == '\\' && s[2..] == rest;
    } else {
      assert s[0] == c && s[1..] == rest;
    }
  }

  /** Escaping loses nothing. */
  lemma {:induction false} StringEscapeRoundTrip(txt: string)
    ensures StringUnescape(StringEscape(txt)) == txt
  {
    if txt != [] {
      StringUnescapeChar(txt[0], StringEscape(txt[1..]));
      StringEscapeRoundTrip(txt[1..]);
    }
  }

  /** `s` repeated `n` times (no times for `n <= 0`). */
  function Repeat(s: string, n: int): (r: string)
    decreases n
  {
    if n <= 0 then "" else Repeat(s, n - 1) + s
  }

  /** Repeating a one-character string gives that many copies of the character. */
  lemma {:induction false} RepeatChar(ch: char, n: int)
    ensures |Repeat([ch], n)| == (if n <= 0 then 0 else n)
    ensures forall i :: 0 <= i < |Repeat([ch], n)| ==> Repeat([ch], n)[i] == ch
    decreases n
  {
    if n > 0 {
      RepeatChar(ch, n - 1);
    }
  }

  lemma {:induction false} RepeatLength(s: string, n: int)
    ensures |Repeat(s, n)| == (if n <= 0 then 0 else n * |s|)
    decreases n
  {
    if n > 0 {
      RepeatLength(s, n - 1);
    }
  }

  /** `replicate(s, n)`: the loop appending `s` to an accumulator `n` times. */
  method Replicate(s: string, n: int) returns (acc: string)
    ensures acc == Repeat(s, n)
  {
    acc := "";
    var i := 0;
    while i < n
      invariant n <= 0 ==> i == 0
      invariant n > 0 ==> 0 <= i <= n
      invariant acc == Repeat(s, i)
    {
      acc := acc + s;
      i := i + 1;
    }
  }

  /** `lpad(s, n, c)`: pad `s` on the left with copies of `c` (by default
      "0") up to length `n`; `n` of 0 or at most `|s|` leaves `s` alone. */
  function Lpad(s: string, n: int, c: string): (r: string)
  {
    var fill := if c == "" then "0" else c;
    if n == 0 || |s| >= n then s else Repeat(fill, n - |s|) + s
  }

  /** With a one-character fill the result has length `max(n, |s|)`, ends
      with `s`, and is the fill character before that. */
  lemma LpadProps(s: string, n: int, c: string)
    requires |c| <= 1
    ensures var r := Lpad(s, n, c);
      && |r| == (if n > |s| then n else |s|)
      && r[|r| - |s|..] == s
      && forall i :: 0 <= i < |r| - |s| ==> r[i] == (if c == "" then '0' else c[0])
  {
    var fill := if c == "" then "0" else c;
    assert fill == [fill[0]];
    RepeatChar(fill[0], n - |s|);
  }

  /** `contains(xs, s)` for an array `xs`: an empty `s` is always contained. */
  predicate ContainsElem(xs: seq<string>, s: string) {
    s == "" || s in xs
  }

  /** The array branch of `contains`: the loop comparing `s` to each element. */
  method ContainsLoop(xs: seq<string>, s: string) returns (found: bool)
    ensures found == ContainsElem(xs, s)
  {
    if s == "" {
      return true;
    }
    var i := 0;
    while i < |xs|
      invariant 0 <= i <= |xs|
      invariant s !in xs[..i]
    {
      if xs[i] == s {
        return true;
      }
      i := i + 1;
    }
    assert xs[..i] == xs;
    return false;
  }

  /** `contains(xs, s)` for a string `xs`: an empty `xs` contains nothing,
      anything else contains the empty string and its substrings. */
  function ContainsSub(xs: string, s: string): (r: bool)
    ensures r <==> xs != "" && (s == "" || exists i :: OccursAt(xs, s, i))
  {
    if xs == "" then false
    else if s == "" then true
    else IndexOf(xs, s) >= 0
  }

  /** `startsWith(s, pre)`: `s.substr(0, |pre|).indexOf(pre) === 0`. */
  function StartsWith(s: string, pre: string): (r: bool)
    ensures r <==> pre <= s
  {
    if pre == "" then true
    else if s == "" then false
    else
      var head := if |pre| <= |s| then s[..|pre|] else s;
      assert OccursAt(head, pre, 0) <==> pre <= s;
      IndexOf(head, pre) == 0
  }

  /** `endsWith(s, post)`: the FIRST occurrence of `post` is at the end. */
  function EndsWith(s: string, post: string): (r: bool)
    ensures r ==> |post| <= |s| && s[|s| - |post|..] == post
    ensures r <==> post == "" || (s != "" && OccursAt(s, post, |s| - |post|) && forall i :: 0 <= i < |s| - |post| ==> !OccursAt(s, post, i))
  {
    if post == "" then true
    else if s == "" then false
    else
      var i := IndexOf(s, post);
      i >= 0 && |s| - |post| == i
  }

  /** Because only the first occurrence is tried, a suffix that also occurs
      earlier is not recognised. */
  lemma EndsWithFirstOccurrenceOnly()
    ensures !EndsWith("abab", "ab")
    ensures "abab"[2..] == "ab"
  {
    assert OccursAt("abab", "ab", 0);
  }

  /** A suffix occurring nowhere else is recognised. */
  lemma EndsWithUniqueSuffix(s: string, post: string)
    requires |post| <= |s| && s[|s| - |post|..] == post
    requires forall i :: 0 <= i < |s| - |post| ==> !OccursAt(s, post, i)
    ensures EndsWith(s, post)
  {
    assert OccursAt(s, post, |s| - |post|);
  }

  /** `\w` (ASCII letters, digits and `_`). */
  predicate IsWordChar(c: char) {
    'a' <= c <= 'z' || 'A' <= c <= 'Z' || '0' <= c <= '9' || c == '_'
  }

  /** Whether `s` is one or more of the tokens `[\w\-]`, `.\w` and `/\w`,
      matched left to right (the first character decides the alternative). */
  predicate PathTokens(s: string)
    decreases |s|
  {
    if s == [] then false
    else if IsWordChar(s[0]) || s[0] == '-' then |s| == 1 || PathTokens(s[1..])
    else if (s[0] == '.' || s[0] == '/') && |s| >= 2 && IsWordChar(s[1]) then |s| == 2 || PathTokens(s[2..])
    else false
  }

  /** `isRelative(fname)`: the pattern `^(?![\.\/])([\w\-]|\.\w|\/\w)+$`. */
  predicate IsRelative(fname: string) {
    fname != [] && fname[0] != '.' && fname[0] != '/' && PathTokens(fname)
  }

  /** Position `i` of `s` is a word character or `-`, or a `.` or `/`
      followed by a word character. */
  predicate PathCharOk(s: string, i: int)
    requires 0 <= i < |s|
  {
    if s[i] == '.' || s[i] == '/' then i + 1 < |s| && IsWordChar(s[i + 1])
    else IsWordChar(s[i]) || s[i] == '-'
  }

  predicate WellFormedPath(s: string) {
    forall i :: 0 <= i < |s| ==> PathCharOk(s, i)
  }

  lemma PathCharOkShift(s: string, k: nat, i: int)
    requires k <= i < |s|
    ensures PathCharOk(s, i) == PathCharOk(s[k..], i - k)
  {
    assert s[k..][i - k] == s[i];
    if i + 1 < |s| {
      assert s[k..][i - k + 1] == s[i + 1];
    }
  }

  /** Dropping a leading token of `k` well-formed characters keeps the rest well formed, and back. */
  lemma WellFormedDrop(s: string, k: nat)
    requires k <= |s|
    requires forall i :: 0 <= i < k ==> PathCharOk(s, i)
    ensures WellFormedPath(s) <==> WellFormedPath(s[k..])
  {
    forall j | 0 <= j < |s| - k ensures PathCharOk(s[k..], j) == PathCharOk(s, j + k) {
      PathCharOkShift(s, k, j + k);
    }
    if WellFormedPath(s[k..]) {
      forall i | 0 <= i < |s| ensures PathCharOk(s, i) {
        if i >= k {
          assert PathCharOk(s[k..], i - k);
        }
      }
    }
  }

  lemma {:induction false} PathTokensChars(s: string)
    ensures PathTokens(s) <==> s != [] && WellFormedPath(s)
    decreases |s|
  {
    if s != [] {
      if IsWordChar(s[0]) || s[0] == '-' {
        assert PathCharOk(s, 0);
        if |s| > 1 {
          PathTokensChars(s[1..]);
          WellFormedDrop(s, 1);
        }
      } else if (s[0] == '.' || s[0] == '/') && |s| >= 2 && IsWordChar(s[1]) {
        assert PathCharOk(s, 0) && PathCharOk(s, 1);
        if |s| > 2 {
          PathTokensChars(s[2..]);
          WellFormedDrop(s, 2);
        }
      } else {
        assert !PathCharOk(s, 0);
      }
    }
  }

  /** A relative name has no `..` and no `./` or `/.` (so no `.` or `..`
      component), no `//`, no drive colon or backslash, does not start with
      `/` or `.`, and does not end with `/` or `.`. */
  lemma IsRelativeSafe(fname: string)
    requires IsRelative(fname)
    ensures fname[0] != '/' && fname[0] != '.'
    ensures fname[|fname| - 1] != '/' && fname[|fname| - 1] != '.'
    ensures forall i :: 0 <= i < |fname| ==> fname[i] != ':' && fname[i] != '\\'
    ensures forall i :: 0 <= i < |fname| - 1 && (fname[i] == '.' || fname[i] == '/') ==>
      fname[i + 1] != '.' && fname[i + 1] != '/'
  {
    PathTokensChars(fname);
    assert PathCharOk(fname, |fname| - 1);
    forall i | 0 <= i < |fname| ensures fname[i] != ':' && fname[i] != '\\' {
      assert PathCharOk(fname, i);
    }
    forall i | 0 <= i < |fname| - 1 && (fname[i] == '.' || fname[i] == '/')
      ensures fname[i + 1] != '.' && fname[i + 1] != '/'
    {
      assert PathCharOk(fname, i);
    }
  }

  /** The characterisation is exact: a well-formed name not starting with
      `.` or `/` is relative. */
  lemma IsRelativeIff(fname: string)
    ensures IsRelative(fname) <==> fname != [] && fname[0] != '.' && fname[0] != '/' && WellFormedPath(fname)
  {
    PathTokensChars(fname);
  }
}
