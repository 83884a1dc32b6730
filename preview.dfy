/** The source-position bookkeeping of the preview page
    (web/client/preview/preview.js): mapping a double-clicked element back to
    a source location, finding the element shown for a source line, and
    telling when every inserted script has loaded. The DOM is a sequence of
    nodes in document order whose links point at other positions. */
module Preview {
  import opened Js
  import opened TextUtil

  /** A node: its `data-line` attribute (`None` when there is none or the
      node has no attributes) and its links. */
  datatype Node = Node(dataLine: Option<string>, previousSibling: Option<nat>,
                       nextSibling: Option<nat>, parentNode: Option<nat>)

  /** In document order a node's previous sibling and its parent come
      before it, and every link points at a node. */
  predicate WellLinked(dom: seq<Node>) {
    forall i :: 0 <= i < |dom| ==>
      (dom[i].previousSibling.Some? ==> dom[i].previousSibling.value < i) &&
      (dom[i].parentNode.Some? ==> dom[i].parentNode.value < i) &&
      (dom[i].nextSibling.Some? ==> dom[i].nextSibling.value < |dom|)
  }

  predicate InDom(dom: seq<Node>, elem: Option<nat>) {
    elem.Some? ==> elem.value < |dom|
  }

  // ---------------------------------------------------------------------
  // findLocation

  /** A source location: the file (`None` for the main document) and the line. */
  datatype Location = Location(path: Option<string>, line: int)

  /** One or more decimal digits. */
  predicate AllDigits(d: string) {
    |d| >= 1 && forall i :: 0 <= i < |d| ==> IsDecDigit(d[i])
  }

  /** The text of the capture group `([^:;]+)`. */
  predicate PathPart(p: string) {
    |p| >= 1 && ':' !in p && ';' !in p
  }

  /** `/(?:^|;)(?:([^:;]+):)?(\d+)$/` matches `s` from `q` to the end, at
      the start or just after a `;`, capturing `path` and `digits`. */
  predicate Matches(s: string, q: int, path: Option<string>, digits: string) {
    0 <= q <= |s| && (q == 0 || s[q - 1] == ';') &&
    AllDigits(digits) && (path.Some? ==> PathPart(path.value)) &&
    s[q..] == (if path.Some? then path.value + ":" else "") + digits
  }

  /** The position of the last `c` in `s`, -1 if there is none. */
  function LastIndexOfChar(s: string, c: char): (k: int)
    ensures -1 <= k < |s|
    ensures k >= 0 ==> s[k] == c
    ensures forall j :: k < j < |s| ==> s[j] != c
  {
    if s == [] then -1
    else if s[|s| - 1] == c then |s| - 1
    else LastIndexOfChar(s[..|s| - 1], c)
  }

  /** The text after the last `;`. */
  function LastSegment(s: string): (seg: string)
    ensures ';' !in seg
    ensures seg == s[LastIndexOfChar(s, ';') + 1..]
  {
    if s == [] || s[|s| - 1] == ';' then []
    else
      var init := s[..|s| - 1];
      assert s[LastIndexOfChar(s, ';') + 1..] == init[LastIndexOfChar(init, ';') + 1..] + [s[|s| - 1]];
      LastSegment(init) + [s[|s| - 1]]
  }

  /** The captures of the pattern on a segment without `;`: all digits, or
      a path, a `:` and digits. */
  function MatchSegment(seg: string): Option<(Option<string>, string)>
  {
    if AllDigits(seg) then Some((None, seg))
    else
      var c := IndexOf(seg, ":");
      if c >= 1 && AllDigits(seg[c + 1..]) then Some((Some(seg[..c]), seg[c + 1..])) else None
  }

  /** The captures of that pattern: only the text after the last `;` can match. */
  function MatchDataLine(s: string): Option<(Option<string>, string)>
  {
    MatchSegment(LastSegment(s))
  }

  /** What `MatchSegment` captures spells the segment. */
  lemma MatchSegmentSpells(seg: string)
    requires ';' !in seg && MatchSegment(seg).Some?
    ensures var m := MatchSegment(seg).value;
      AllDigits(m.1) && (m.0.Some? ==> PathPart(m.0.value)) &&
      seg == (if m.0.Some? then m.0.value + ":" else "") + m.1
  {
    if !AllDigits(seg) {
      var c := IndexOf(seg, ":");
      assert seg[..c] + ":" + seg[c + 1..] == seg;
      forall j | 0 <= j < c ensures seg[..c][j] != ':' && seg[..c][j] != ';' {
        assert !OccursAt(seg, ":", j);
        assert seg[..c][j] == seg[j];
      }
    }
  }

  /** Any spelling of a segment as a match is the one `MatchSegment` finds. */
  lemma MatchSegmentUnique(seg: string, p: Option<string>, d: string)
    requires AllDigits(d) && (p.Some? ==> PathPart(p.value))
    requires seg == (if p.Some? then p.value + ":" else "") + d
    ensures MatchSegment(seg) == Some((p, d))
  {
    if p.Some? {
      assert seg[|p.value|] == ':';
      assert !AllDigits(seg);
      LeftmostColon(seg, p.value, d);
    } else {
      assert seg == d;
    }
  }

  /** A match can only start right after the last `;`: the text it spans holds none. */
  lemma MatchStartsAfterLastSemicolon(s: string, q: int, p: Option<string>, d: string)
    requires Matches(s, q, p, d)
    ensures q == LastIndexOfChar(s, ';') + 1 && s[q..] == LastSegment(s)
  {
    var t := s[q..];
    forall j | 0 <= j < |t| ensures t[j] != ';' {
      if p.Some? {
        if j < |p.value| {
          assert t[j] == p.value[j];
        } else if j > |p.value| {
          assert t[j] == d[j - |p.value| - 1];
        }
      } else {
        assert t[j] == d[j];
      }
    }
    forall j | q <= j < |s| ensures s[j] != ';' {
      assert s[j] == t[j - q];
    }
  }

  /** `MatchDataLine` is that regular expression: what it returns is a
      match, and any match is what it returns (the match is unique). */
  lemma MatchDataLineIsRegex(s: string)
    ensures MatchDataLine(s).Some? ==> Matches(s, LastIndexOfChar(s, ';') + 1, MatchDataLine(s).value.0, MatchDataLine(s).value.1)
    ensures forall q, p, d :: Matches(s, q, p, d) ==> MatchDataLine(s) == Some((p, d))
  {
    if MatchDataLine(s).Some? {
      MatchSegmentSpells(LastSegment(s));
    }
    forall q, p, d | Matches(s, q, p, d) ensures MatchDataLine(s) == Some((p, d)) {
      MatchStartsAfterLastSemicolon(s, q, p, d);
      MatchSegmentUnique(LastSegment(s), p, d);
    }
  }

  lemma LeftmostColon(seg: string, x: string, d: string)
    requires PathPart(x) && AllDigits(d) && seg == x + ":" + d
    ensures IndexOf(seg, ":") == |x|
    ensures seg[..|x|] == x && seg[|x| + 1..] == d
  {
    assert OccursAt(seg, ":", |x|);
    forall j | 0 <= j < |x| ensures !OccursAt(seg, ":", j) {
      assert seg[j] == x[j];
    }
  }

  /** `parseInt` of a string of digits is its non-negative decimal value. */
  lemma DigitsParse(d: string)
    requires AllDigits(d)
    ensures ParseInt(d).Some? && ParseInt(d).value >= 0
  {
    assert !IsSpace(d[0]);
    assert TrimStart(d) == d;
    assert IsDigitOf(d[0], 10);
  }

  /** What `findLocation` makes of one data-line: a match whose line is not
      0 (`if (line && ...)`), else nothing. */
  function LocationOf(dataLine: Option<string>): Option<Location>
  {
    if dataLine.None? || dataLine.value == "" then None
    else
      var cap := MatchDataLine(dataLine.value);
      if cap.None? then None
      else
        var line := ParseInt(cap.value.1);
        if line.Some? && line.value != 0 then Some(Location(cap.value.0, line.value)) else None
  }

  /** A data-line gives the location its pattern captures, unless the line
      is 0 or there is no match; a location found has a positive line. */
  lemma LocationOfMatch(s: string)
    ensures forall q, p, d :: Matches(s, q, p, d) ==>
              ParseInt(d).Some? &&
              LocationOf(Some(s)) == if ParseInt(d).value == 0 then None else Some(Location(p, ParseInt(d).value))
    ensures (forall q, p, d :: !Matches(s, q, p, d)) ==> LocationOf(Some(s)).None?
    ensures LocationOf(Some(s)).Some? ==> LocationOf(Some(s)).value.line >= 1
  {
    MatchDataLineIsRegex(s);
    forall q, p, d | Matches(s, q, p, d) ensures ParseInt(d).Some? && ParseInt(d).value >= 0 {
      DigitsParse(d);
    }
    var m := MatchDataLine(s);
    if m.Some? {
      DigitsParse(m.value.1);
      assert s != "" by {
        assert |m.value.1| >= 1;
      }
    }
  }

  /** The node `findLocation` visits after `i`: its previous sibling, else its parent. */
  function Step(dom: seq<Node>, i: nat): Option<nat>
    requires i < |dom|
  {
    if dom[i].previousSibling.Some? then dom[i].previousSibling else dom[i].parentNode
  }

  /** The nodes `findLocation` visits from `elem` until it reaches `root`
      or runs out of nodes; each comes before the previous one. */
  function Visits(dom: seq<Node>, root: nat, elem: Option<nat>): (vs: seq<nat>)
    requires WellLinked(dom) && InDom(dom, elem)
    ensures forall k :: 0 <= k < |vs| ==> vs[k] < |dom| && vs[k] != root
    ensures forall k :: 0 < k < |vs| ==> vs[k] < vs[k - 1]
    decreases if elem.Some? then elem.value + 1 else 0
  {
    if elem.None? || elem.value == root then []
    else
      var rest := Visits(dom, root, Step(dom, elem.value));
      assert rest != [] ==> rest[0] < elem.value;
      [elem.value] + rest
  }

  /** The location of the first visited node that has one. */
  function FirstLocation(dom: seq<Node>, vs: seq<nat>): Option<Location>
    requires forall k :: 0 <= k < |vs| ==> vs[k] < |dom|
  {
    if vs == [] then None
    else
      var loc := LocationOf(dom[vs[0]].dataLine);
      if loc.Some? then loc else FirstLocation(dom, vs[1..])
  }

  /** The position of the first visited node with a location, `|vs|` if none has one. */
  function FirstIndex(dom: seq<Node>, vs: seq<nat>): (k: nat)
    requires forall k :: 0 <= k < |vs| ==> vs[k] < |dom|
    ensures k <= |vs|
  {
    if vs == [] || LocationOf(dom[vs[0]].dataLine).Some? then 0 else 1 + FirstIndex(dom, vs[1..])
  }

  /** The location found is that of the first visited node that has one. */
  lemma {:induction false} FirstLocationIsFirst(dom: seq<Node>, vs: seq<nat>)
    requires forall k :: 0 <= k < |vs| ==> vs[k] < |dom|
    ensures forall j :: 0 <= j < FirstIndex(dom, vs) ==> LocationOf(dom[vs[j]].dataLine).None?
    ensures FirstIndex(dom, vs) < |vs| ==>
              LocationOf(dom[vs[FirstIndex(dom, vs)]].dataLine).Some? &&
              FirstLocation(dom, vs) == LocationOf(dom[vs[FirstIndex(dom, vs)]].dataLine)
    ensures FirstIndex(dom, vs) == |vs| ==> FirstLocation(dom, vs).None?
  {
    if vs != [] && LocationOf(dom[vs[0]].dataLine).None? {
      var rest := vs[1..];
      FirstLocationIsFirst(dom, rest);
      var k := FirstIndex(dom, rest);
      assert FirstIndex(dom, vs) == k + 1;
      forall j | 0 <= j < k + 1 ensures LocationOf(dom[vs[j]].dataLine).None? {
        if j > 0 {
          assert vs[j] == rest[j - 1];
        }
      }
      if k < |rest| {
        assert vs[k + 1] == rest[k];
      }
    }
  }

  /** `findLocation(root, elem)`: walk back through previous siblings and
      parents, up to `root`, to the first node whose data-line names a
      location. */
  method FindLocation(dom: seq<Node>, root: nat, elem: Option<nat>) returns (r: Option<Location>)
    requires WellLinked(dom) && InDom(dom, elem)
    ensures r == FirstLocation(dom, Visits(dom, root, elem))
  {
    var e := elem;
    while e.Some? && e.value != root
      invariant InDom(dom, e)
      invariant FirstLocation(dom, Visits(dom, root, e)) == FirstLocation(dom, Visits(dom, root, elem))
      decreases if e.Some? then e.value + 1 else 0
    {
      var dataline := dom[e.value].dataLine;
      if dataline.Some? && dataline.value != "" {
        var cap := MatchDataLine(dataline.value);
        if cap.Some? {
          var line := ParseInt(cap.value.1);
          if line.Some? && line.value != 0 {
            return Some(Location(cap.value.0, line.value));
          }
        }
      }
      e := Step(dom, e.value);
    }
    return None;
  }

  // ---------------------------------------------------------------------
  // findNextElement and bodyFindElemAtLine

  /** `findNextElement(root, elem)`: the next sibling of `elem` or of its
      nearest ancestor that has one, stopping at `root`. */
  function FindNextElement(dom: seq<Node>, root: nat, elem: Option<nat>): (r: Option<nat>)
    requires WellLinked(dom) && InDom(dom, elem)
    ensures InDom(dom, r)
    decreases if elem.Some? then elem.value + 1 else 0
  {
    if elem.None? || elem.value == root then elem
    else if dom[elem.value].nextSibling.Some? then dom[elem.value].nextSibling
    else FindNextElement(dom, root, dom[elem.value].parentNode)
  }

  /** `elem` and its ancestors, up to `root`. */
  function Ancestry(dom: seq<Node>, root: nat, elem: Option<nat>): (as_: seq<nat>)
    requires WellLinked(dom) && InDom(dom, elem)
    ensures forall k :: 0 <= k < |as_| ==> as_[k] < |dom| && as_[k] != root
    decreases if elem.Some? then elem.value + 1 else 0
  {
    if elem.None? || elem.value == root then []
    else [elem.value] + Ancestry(dom, root, dom[elem.value].parentNode)
  }

  /** The next element is the next sibling of the first of `elem` and its
      ancestors that has one; when none has, the walk ends at `root` or
      at the top of the tree. */
  lemma {:induction false} FindNextElementIsNearest(dom: seq<Node>, root: nat, elem: Option<nat>)
    requires WellLinked(dom) && InDom(dom, elem)
    ensures var as_ := Ancestry(dom, root, elem);
      var r := FindNextElement(dom, root, elem);
      (exists k :: 0 <= k < |as_| && dom[as_[k]].nextSibling.Some? && r == dom[as_[k]].nextSibling &&
        forall j :: 0 <= j < k ==> dom[as_[j]].nextSibling.None?) ||
      ((forall k :: 0 <= k < |as_| ==> dom[as_[k]].nextSibling.None?) && (r.None? || r == Some(root)))
    decreases if elem.Some? then elem.value + 1 else 0
  {
    if elem.Some? && elem.value != root && dom[elem.value].nextSibling.None? {
      var up := dom[elem.value].parentNode;
      FindNextElementIsNearest(dom, root, up);
      var as_ := Ancestry(dom, root, elem);
      var rest := Ancestry(dom, root, up);
      assert as_ == [elem.value] + rest;
      if exists k :: 0 <= k < |rest| && dom[rest[k]].nextSibling.Some? &&
                     FindNextElement(dom, root, up) == dom[rest[k]].nextSibling &&
                     forall j :: 0 <= j < k ==> dom[rest[j]].nextSibling.None? {
        var k :| 0 <= k < |rest| && dom[rest[k]].nextSibling.Some? &&
                 FindNextElement(dom, root, up) == dom[rest[k]].nextSibling &&
                 forall j :: 0 <= j < k ==> dom[rest[j]].nextSibling.None?;
        assert as_[k + 1] == rest[k];
        assert forall j :: 0 < j <= k ==> as_[j] == rest[j - 1];
      } else {
        assert forall k :: 0 < k < |as_| ==> as_[k] == rest[k - 1];
      }
    } else if elem.Some? && elem.value != root {
      assert Ancestry(dom, root, elem)[0] == elem.value;
    }
  }

  /** `document.querySelectorAll(selector)` of `bodyFindElemAtLine`: in
      document order, the nodes with a data-line, or with one containing
      `;fname:` when a file name is given. */
  function Selected(dom: seq<Node>, fname: string, n: nat): (elems: seq<nat>)
    requires n <= |dom|
    ensures forall k :: 0 <= k < |elems| ==> elems[k] < n && dom[elems[k]].dataLine.Some?
    ensures forall k :: 0 <= k < |elems| ==> fname != "" ==> IndexOf(dom[elems[k]].dataLine.value, ";" + fname + ":") >= 0
  {
    if n == 0 then []
    else
      var a := dom[n - 1].dataLine;
      Selected(dom, fname, n - 1) +
        (if a.Some? && (fname == "" || IndexOf(a.value, ";" + fname + ":") >= 0) then [n - 1] else [])
  }

  /** The line of a selected element: `parseInt` of its data-line, or of
      what follows `fname:` in it; `None` stands for NaN. */
  function LineOf(dataLine: string, fname: string): Option<int>
  {
    if dataLine == "" then None
    else if fname == "" then ParseInt(dataLine)
    else
      var idx := IndexOf(dataLine, fname + ":");
      ParseInt(if idx >= 0 then dataLine[idx + |fname| + 1..] else "")
  }

  /** A data-line selected for a file is read after the first `fname:`. */
  lemma SelectedReadsAfterName(dataLine: string, fname: string)
    requires fname != "" && IndexOf(dataLine, ";" + fname + ":") >= 0
    ensures var idx := IndexOf(dataLine, fname + ":");
      0 <= idx && LineOf(dataLine, fname) == ParseInt(dataLine[idx + |fname| + 1..])
  {
    var i := IndexOf(dataLine, ";" + fname + ":");
    assert OccursAt(dataLine, fname + ":", i + 1) by {
      assert dataLine[i + 1..i + 1 + |fname + ":"|] == (";" + fname + ":")[1..];
    }
  }

  /** Whether the parsed line lies after the requested one. */
  predicate Above(v: Option<int>, line: int) {
    v.Some? && v.value > line
  }

  predicate AtOrBelow(v: Option<int>, line: int) {
    v.Some? && v.value <= line
  }

  /** Where the scan breaks: the first element whose line lies after `line`,
      `|lines|` if there is none. */
  function FirstAbove(lines: seq<Option<int>>, line: int, from: nat): (k: nat)
    requires from <= |lines|
    ensures from <= k <= |lines|
    ensures k < |lines| ==> Above(lines[k], line)
    ensures forall j :: from <= j < k ==> !Above(lines[j], line)
    decreases |lines| - from
  {
    if from == |lines| || Above(lines[from], line) then from else FirstAbove(lines, line, from + 1)
  }

  /** The last element before `n` whose line is at or before `line`, -1 if none. */
  function LastAtOrBelow(lines: seq<Option<int>>, line: int, n: nat): (k: int)
    requires n <= |lines|
    ensures -1 <= k < n
    ensures k >= 0 ==> AtOrBelow(lines[k], line)
    ensures forall j :: k < j < n ==> !AtOrBelow(lines[j], line)
  {
    if n == 0 then -1
    else if AtOrBelow(lines[n - 1], line) then n - 1
    else LastAtOrBelow(lines, line, n - 1)
  }

  /** The parsed lines of the selected elements. */
  function Lines(dom: seq<Node>, elems: seq<nat>, fname: string): (lines: seq<Option<int>>)
    requires forall k :: 0 <= k < |elems| ==> elems[k] < |dom| && dom[elems[k]].dataLine.Some?
    ensures |lines| == |elems|
    ensures forall k :: 0 <= k < |elems| ==> lines[k] == LineOf(dom[elems[k]].dataLine.value, fname)
  {
    if elems == [] then []
    else Lines(dom, elems[..|elems| - 1], fname) + [LineOf(dom[elems[|elems| - 1]].dataLine.value, fname)]
  }

  /** The result of `bodyFindElemAtLine`. */
  datatype ElemAtLine = ElemAtLine(elem: nat, elemLine: int, next: Option<nat>, nextLine: int)

  /** `current` and `currentLine` once the first `i` elements are scanned:
      the last element at or before `line`, else the first element with
      `line` itself. */
  function CurrentAfter(elems: seq<nat>, lines: seq<Option<int>>, line: int, i: nat): (nat, int)
    requires |elems| == |lines| && 0 < |elems| && i <= |lines|
  {
    var c := LastAtOrBelow(lines, line, i);
    if c < 0 then (elems[0], line) else (elems[c], lines[c].value)
  }

  /** What `bodyFindElemAtLine(lineCount, line, fname)` returns: nothing
      without a selected element; otherwise the current element at the
      break, and the element where the scan broke or, failing that, the
      element after the current one in the tree with `lineCount`. */
  function ElemAt(dom: seq<Node>, body: nat, lineCount: int, line: int, fname: string): Option<ElemAtLine>
    requires WellLinked(dom)
  {
    var elems := Selected(dom, fname, |dom|);
    var lines := Lines(dom, elems, fname);
    if elems == [] then None
    else
      var stop := FirstAbove(lines, line, 0);
      var (elem, elemLine) := CurrentAfter(elems, lines, line, stop);
      if stop < |elems| then Some(ElemAtLine(elem, elemLine, Some(elems[stop]), lines[stop].value))
      else Some(ElemAtLine(elem, elemLine, FindNextElement(dom, body, Some(elem)), lineCount))
  }

  /** The loop invariant of `bodyFindElemAtLine`: no element so far lies
      after `line`, and `current` is where the scan has got to. */
  ghost predicate Scanning(elems: seq<nat>, lines: seq<Option<int>>, line: int, i: nat,
                           current: Option<nat>, currentLine: int)
    requires |elems| == |lines| && i <= |lines|
  {
    (forall j :: 0 <= j < i ==> !Above(lines[j], line)) &&
    (elems == [] ==> current.None?) &&
    (elems != [] ==> current == Some(CurrentAfter(elems, lines, line, i).0) &&
                     currentLine == CurrentAfter(elems, lines, line, i).1)
  }

  lemma ScanningStep(elems: seq<nat>, lines: seq<Option<int>>, line: int, i: nat,
                     current: Option<nat>, currentLine: int)
    requires |elems| == |lines| && i < |lines| && !Above(lines[i], line)
    requires Scanning(elems, lines, line, i, current, currentLine)
    ensures AtOrBelow(lines[i], line) ==> Scanning(elems, lines, line, i + 1, Some(elems[i]), lines[i].value)
    ensures !AtOrBelow(lines[i], line) ==> Scanning(elems, lines, line, i + 1, current, currentLine)
  {
  }

  lemma ScanningStops(elems: seq<nat>, lines: seq<Option<int>>, line: int, i: nat,
                      current: Option<nat>, currentLine: int)
    requires |elems| == |lines| && i < |lines| && Above(lines[i], line)
    requires Scanning(elems, lines, line, i, current, currentLine)
    ensures FirstAbove(lines, line, 0) == i
  {
  }

  /** `bodyFindElemAtLine(lineCount, line, fname)`. */
  method BodyFindElemAtLine(dom: seq<Node>, body: nat, lineCount: int, line: int, fname: string)
    returns (r: Option<ElemAtLine>)
    requires WellLinked(dom)
    ensures r == ElemAt(dom, body, lineCount, line, fname)
  {
    var elems := Selected(dom, fname, |dom|);
    ghost var lines := Lines(dom, elems, fname);
    var currentLine := line;
    var current: Option<nat> := if elems == [] then None else Some(elems[0]);
    var nextLine := line;
    var next: Option<nat> := None;
    for i := 0 to |elems|
      invariant Scanning(elems, lines, line, i, current, currentLine)
      invariant next.None?
    {
      var cline := LineOf(dom[elems[i]].dataLine.value, fname);
      if cline.Some? {
        if cline.value > line {
          ScanningStops(elems, lines, line, i, current, currentLine);
          nextLine := cline.value;
          next := Some(elems[i]);
          break;
        }
      }
      ScanningStep(elems, lines, line, i, current, currentLine);
      if cline.Some? && cline.value <= line {
        currentLine := cline.value;
        current := Some(elems[i]);
      }
    }
    if current.None? {
      return None;
    }
    if next.None? {
      next := FindNextElement(dom, body, current);
      nextLine := lineCount;
    }
    return Some(ElemAtLine(current.value, currentLine, next, nextLine));
  }

  /** The properties of `bodyFindElemAtLine`: nothing is found exactly when
      no element is selected; the line found is at most `line`; the scan
      breaks at the first element after `line`, which becomes `next`, and
      only without one does `nextLine` become `lineCount`. */
  lemma ElemAtProps(dom: seq<Node>, body: nat, lineCount: int, line: int, fname: string)
    requires WellLinked(dom)
    ensures var r := ElemAt(dom, body, lineCount, line, fname);
      r.None? <==> Selected(dom, fname, |dom|) == []
    ensures var r := ElemAt(dom, body, lineCount, line, fname);
      r.Some? ==> r.value.elemLine <= line
    ensures var r := ElemAt(dom, body, lineCount, line, fname);
      var elems := Selected(dom, fname, |dom|);
      var lines := Lines(dom, elems, fname);
      r.Some? ==>
        ((exists k :: 0 <= k < |elems| && Above(lines[k], line)) ==>
           r.value.nextLine > line && r.value.next == Some(elems[FirstAbove(lines, line, 0)])) &&
        ((forall k :: 0 <= k < |elems| ==> !Above(lines[k], line)) ==>
           r.value.nextLine == lineCount && r.value.next == FindNextElement(dom, body, Some(r.value.elem)))
  {
    var elems := Selected(dom, fname, |dom|);
    var lines := Lines(dom, elems, fname);
    if elems != [] {
      var stop := FirstAbove(lines, line, 0);
      var c := LastAtOrBelow(lines, line, stop);
      if c >= 0 {
        assert AtOrBelow(lines[c], line);
      }
    }
  }

  /** The element found is the last one at or before `line` up to the
      break, and an element whose data-line does not parse is never chosen. */
  lemma ElemAtCurrent(dom: seq<Node>, body: nat, lineCount: int, line: int, fname: string)
    requires WellLinked(dom)
    ensures var r := ElemAt(dom, body, lineCount, line, fname);
      var elems := Selected(dom, fname, |dom|);
      var lines := Lines(dom, elems, fname);
      var stop := FirstAbove(lines, line, 0);
      r.Some? ==>
        (exists k :: 0 <= k < stop && elems[k] == r.value.elem && lines[k] == Some(r.value.elemLine) &&
           forall j :: k < j < stop ==> !AtOrBelow(lines[j], line)) ||
        ((forall j :: 0 <= j < stop ==> !AtOrBelow(lines[j], line)) &&
           r.value.elem == elems[0] && r.value.elemLine == line)
  {
    var elems := Selected(dom, fname, |dom|);
    var lines := Lines(dom, elems, fname);
    if elems != [] {
      var stop := FirstAbove(lines, line, 0);
      var c := LastAtOrBelow(lines, line, stop);
      if c >= 0 {
        assert lines[c] == Some(lines[c].value);
      }
    }
  }

  // ---------------------------------------------------------------------
  // loadedScripts and onLoaded

  /** `/\bpreview\b/` matches the class name. */
  predicate HasPreviewClass(className: string) {
    exists i :: 0 <= i <= |className| - 7 && OccursAt(className, "preview", i) &&
      (i == 0 || !IsWordChar(className[i - 1])) &&
      (i + 7 == |className| || !IsWordChar(className[i + 7]))
  }

  /** Every script inserted so far has loaded. */
  predicate AllLoaded(scripts: map<string, bool>) {
    forall k :: k in scripts ==> scripts[k]
  }

  /** The scripts of the preview page, each inserted once and never removed. */
  class ScriptTracker {
    /** `loadedScripts`: for each inserted script, whether it has loaded. */
    var loadedScripts: map<string, bool>

    constructor()
      ensures loadedScripts == map[]
    {
      loadedScripts := map[];
    }

    /** The script branch of `loadContent` for a script whose `src`
        attribute is `src` ("" when it has none): an inline script is
        evaluated and never registered; a `preview` script not seen before
        is inserted and registered as not yet loaded. */
    method Insert(src: string, className: string) returns (inserted: bool)
      modifies this
      ensures inserted <==> src != "" && ("/" + src) !in old(loadedScripts) && HasPreviewClass(className)
      ensures loadedScripts == if inserted then old(loadedScripts)["/" + src := false] else old(loadedScripts)
      ensures inserted ==> !AllLoaded(loadedScripts)
    {
      inserted := src != "" && ("/" + src) !in loadedScripts && HasPreviewClass(className);
      if inserted {
        loadedScripts := loadedScripts["/" + src := false];
        assert !loadedScripts["/" + src];
      }
    }

    /** `onLoaded(src)`: mark the script loaded, when one is named, and
        report whether the `load` event is dispatched: only once every
        registered script has loaded. */
    method OnLoaded(src: string) returns (dispatched: bool)
      modifies this
      ensures loadedScripts == if src != "" then old(loadedScripts)["/" + src := true] else old(loadedScripts)
      ensures dispatched <==> AllLoaded(loadedScripts)
    {
      if src != "" {
        loadedScripts := loadedScripts["/" + src := true];
      }
      var pending := loadedScripts.Keys;
      while pending != {}
        invariant pending <= loadedScripts.Keys
        invariant forall k :: k in loadedScripts && k !in pending ==> loadedScripts[k]
        decreases pending
      {
        var script :| script in pending;
        if loadedScripts[script] != true {
          return false;
        }
        pending := pending - {script};
      }
      return true;
    }
  }

  /** A registered script that has not loaded holds the event back, whatever
      else loads; once it loads, only the others decide. */
  lemma PendingScriptBlocksLoad(scripts: map<string, bool>, k: string, src: string)
    requires k in scripts && !scripts[k]
    ensures "/" + src != k ==> !AllLoaded(scripts["/" + src := true])
    ensures AllLoaded(scripts[k := true]) <==> forall j :: j in scripts && j != k ==> scripts[j]
  {
    if "/" + src != k {
      assert scripts["/" + src := true][k] == false;
    }
    var done := scripts[k := true];
    if forall j :: j in scripts && j != k ==> scripts[j] {
      forall j | j in done ensures done[j] {
        if j != k {
          assert done[j] == scripts[j];
        }
      }
    }
    if AllLoaded(done) {
      forall j | j in scripts && j != k ensures scripts[j] {
        assert j in done && done[j] == scripts[j];
      }
    }
  }
}
