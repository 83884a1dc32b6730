/** The JavaScript built-ins the modelled code leans on: `indexOf`, `split`,
    `join`, the `\s` character class and `parseInt`. Strings are `seq<char>`,
    sequences of Unicode scalar values; JavaScript strings are sequences of
    UTF-16 code units, so the two agree only on text within the Basic
    Multilingual Plane. */
module Js {

  datatype Option<T> = None | Some(value: T)

  /** `sub` occurs in `s` starting at position `i`. */
  predicate OccursAt(s: string, sub: string, i: int) {
    0 <= i && i + |sub| <= |s| && s[i..i + |sub|] == sub
  }

  /** `s.indexOf(sub, from)`: scan from `from` towards the end. */
  function IndexOfFrom(s: string, sub: string, from: nat): (r: int)
    ensures r == -1 || (from <= r && OccursAt(s, sub, r))
    ensures r == -1 ==> forall i :: from <= i ==> !OccursAt(s, sub, i)
    ensures r >= 0 ==> forall i :: from <= i < r ==> !OccursAt(s, sub, i)
    decreases |s| - from
  {
    if from + |sub| > |s| then -1
    else if s[from..from + |sub|] == sub then from
    else IndexOfFrom(s, sub, from + 1)
  }

  /** `s.indexOf(sub)`: the first occurrence of `sub` in `s`, or -1 if there is none. */
  function IndexOf(s: string, sub: string): (r: int)
    ensures r == -1 <==> forall i :: 0 <= i ==> !OccursAt(s, sub, i)
    ensures r >= 0 ==> OccursAt(s, sub, r) && forall i :: 0 <= i < r ==> !OccursAt(s, sub, i)
    ensures -1 <= r
  {
    IndexOfFrom(s, sub, 0)
  }

  /** `ps.join(sep)`. */
  function Join(ps: seq<string>, sep: string): string
  {
    if |ps| == 0 then ""
    else if |ps| == 1 then ps[0]
    else ps[0] + sep + Join(ps[1..], sep)
  }

  /** `s.split(c)` for a one-character separator: the pieces between the
      occurrences of `c`; an empty string gives one empty piece. */
  function Split(s: string, c: char): (r: seq<string>)
    ensures |r| >= 1
    ensures forall k :: 0 <= k < |r| ==> c !in r[k]
    ensures Join(r, [c]) == s
  {
    if s == [] then [""]
    else
      var rest := Split(s[1..], c);
      if s[0] == c then [""] + rest
      else
        JoinCons(rest, [c]);
        [[s[0]] + rest[0]] + rest[1..]
  }

  lemma JoinCons(ps: seq<string>, sep: string)
    requires |ps| >= 1
    ensures Join(ps, sep) == ps[0] + (if |ps| == 1 then "" else sep + Join(ps[1..], sep))
  {
  }

  /** Splitting undoes joining when no piece contains the separator. */
  lemma {:induction false} SplitJoin(ps: seq<string>, c: char)
    requires |ps| >= 1
    requires forall k :: 0 <= k < |ps| ==> c !in ps[k]
    ensures Split(Join(ps, [c]), c) == ps
    decreases |ps|, |ps[0]|
  {
    if |ps[0]| == 0 {
      if |ps| > 1 {
        calc {
          Split(Join(ps, [c]), c);
          { assert Join(ps, [c]) == [c] + Join(ps[1..], [c]); }
          [""] + Split(Join(ps[1..], [c]), c);
          { SplitJoin(ps[1..], c); }
          [""] + ps[1..];
          ps;
        }
      }
    } else {
      var tail := [ps[0][1..]] + ps[1..];
      assert forall k :: 0 <= k < |tail| ==> c !in tail[k] by {
        forall k | 0 <= k < |tail| ensures c !in tail[k] {
          if k == 0 {
            assert forall x :: x in ps[0][1..] ==> x in ps[0];
          } else {
            assert tail[k] == ps[k];
          }
        }
      }
      JoinCons(ps, [c]);
      JoinCons(tail, [c]);
      assert Join(ps, [c]) == [ps[0][0]] + Join(tail, [c]);
      assert Join(ps, [c])[0] == ps[0][0];
      assert Join(ps, [c])[1..] == Join(tail, [c]);
      SplitJoin(tail, c);
      assert ps[0][0] != c;
      assert [ps[0][0]] + tail[0] == ps[0];
    }
  }

  /** An occurrence in `t` is an occurrence in `a + t`, shifted by `|a|`. */
  lemma OccursShift(a: string, t: string, sub: string, i: int)
    requires OccursAt(t, sub, i)
    ensures OccursAt(a + t, sub, |a| + i)
  {
    assert (a + t)[|a| + i..|a| + i + |sub|] == t[i..i + |sub|];
  }

  /** An occurrence inside an occurrence. */
  lemma OccursWithin(s: string, mid: string, sub: string, i: int, j: int)
    requires OccursAt(s, mid, i) && OccursAt(mid, sub, j)
    ensures OccursAt(s, sub, i + j)
  {
    var m := s[i..i + |mid|];
    var a, b := s[i + j..i + j + |sub|], m[j..j + |sub|];
    forall k | 0 <= k < |sub| ensures a[k] == b[k] {
      assert m[j + k] == s[i + j + k];
    }
    assert a == b;
  }

  /** `sub` cannot occur in `s` when one of its characters is absent from `s`. */
  lemma CharAbsent(s: string, sub: string, j: nat)
    requires j < |sub| && sub[j] !in s
    ensures forall i :: !OccursAt(s, sub, i)
  {
    forall i ensures !OccursAt(s, sub, i) {
      if 0 <= i && i + |sub| <= |s| {
        assert s[i..i + |sub|][j] == s[i + j];
        assert s[i + j] in s;
      }
    }
  }

  /** Every piece occurs in the joined string. */
  lemma {:induction false} JoinHasPiece(ps: seq<string>, sep: string, k: nat)
    requires k < |ps|
    ensures exists i :: OccursAt(Join(ps, sep), ps[k], i)
  {
    if k == 0 {
      if |ps| > 1 {
        assert (ps[0] + (sep + Join(ps[1..], sep)))[..|ps[0]|] == ps[0];
        assert ps[0] + sep + Join(ps[1..], sep) == ps[0] + (sep + Join(ps[1..], sep));
      }
      assert OccursAt(Join(ps, sep), ps[k], 0);
    } else {
      assert Join(ps, sep) == (ps[0] + sep) + Join(ps[1..], sep);
      assert ps[1..][k - 1] == ps[k];
      JoinHasPiece(ps[1..], sep, k - 1);
      var i :| OccursAt(Join(ps[1..], sep), ps[1..][k - 1], i);
      OccursShift(ps[0] + sep, Join(ps[1..], sep), ps[k], i);
    }
  }

  /** A character that is neither in the separator nor in any piece is not
      in the joined string. */
  lemma {:induction false} JoinAvoids(ps: seq<string>, sep: string, c: char)
    requires c !in sep && forall p :: p in ps ==> c !in p
    ensures c !in Join(ps, sep)
  {
    if |ps| > 1 {
      JoinAvoids(ps[1..], sep, c);
    }
  }

  lemma SeparatorSplits(p: string, c: char, rest: string, sub: string, i: int)
    requires OccursAt(p + [c] + rest, sub, i)
    ensures i <= |p| < i + |sub| ==> c in sub
  {
    if i <= |p| < i + |sub| {
      assert (p + [c] + rest)[i..i + |sub|][|p| - i] == c;
    }
  }

  /** A needle without the separator character only matches inside a piece. */
  lemma {:induction false} JoinOccursInPiece(ps: seq<string>, c: char, sub: string, i: int)
    requires |ps| >= 1 && c !in sub && OccursAt(Join(ps, [c]), sub, i)
    ensures exists p, j :: p in ps && OccursAt(p, sub, j)
  {
    if |ps| == 1 {
      assert OccursAt(ps[0], sub, i);
    } else {
      var p := ps[0];
      var rest := Join(ps[1..], [c]);
      var s := Join(ps, [c]);
      assert s == p + [c] + rest;
      SeparatorSplits(p, c, rest, sub, i);
      if i + |sub| <= |p| {
        assert s[i..i + |sub|] == p[i..i + |sub|];
        assert OccursAt(p, sub, i);
      } else {
        assert i > |p|;
        assert s[i..i + |sub|] == rest[i - |p| - 1..i - |p| - 1 + |sub|];
        JoinOccursInPiece(ps[1..], c, sub, i - |p| - 1);
        var q, j :| q in ps[1..] && OccursAt(q, sub, j);
        assert q in ps;
      }
    }
  }

  /** A separator-free needle that occurs in no piece does not occur in the
      joined string. */
  lemma JoinLacks(ps: seq<string>, c: char, sub: string)
    requires |ps| >= 1 && c !in sub
    requires forall p, j :: p in ps ==> !OccursAt(p, sub, j)
    ensures forall i :: !OccursAt(Join(ps, [c]), sub, i)
  {
    forall i ensures !OccursAt(Join(ps, [c]), sub, i) {
      if OccursAt(Join(ps, [c]), sub, i) {
        JoinOccursInPiece(ps, c, sub, i);
        assert false;
      }
    }
  }

  /** Membership in the `\s` character class: the ECMAScript WhiteSpace and
      LineTerminator code points. `parseInt` skips the same set. */
  predicate IsSpace(c: char) {
    c == '\t' || c == '\n' || c == '\U{000B}' || c == '\U{000C}' || c == '\r' || c == ' ' ||
    c == '\U{00A0}' || c == '\U{1680}' || ('\U{2000}' <= c <= '\U{200A}') ||
    c == '\U{2028}' || c == '\U{2029}' || c == '\U{202F}' || c == '\U{205F}' || c == '\U{3000}' ||
    c == '\U{FEFF}'
  }

  /** The LineTerminator code points, which `.` in a regular expression does not match. */
  predicate IsLineTerminator(c: char) {
    c == '\n' || c == '\r' || c == '\U{2028}' || c == '\U{2029}'
  }

  /** `s` with its leading `\s` characters removed. */
  function TrimStart(s: string): (r: string)
    ensures |r| <= |s| && r == s[|s| - |r|..]
    ensures r == [] || !IsSpace(r[0])
  {
    if s != [] && IsSpace(s[0]) then TrimStart(s[1..]) else s
  }

  /** What `TrimStart` removes is white space. */
  lemma {:induction false} TrimStartRemovesSpaces(s: string)
    ensures forall i :: 0 <= i < |s| - |TrimStart(s)| ==> IsSpace(s[i])
  {
    if s != [] && IsSpace(s[0]) {
      TrimStartRemovesSpaces(s[1..]);
      forall i | 0 < i < |s| - |TrimStart(s)| ensures IsSpace(s[i]) {
        assert s[i] == s[1..][i - 1];
      }
    }
  }

  /** `s.split(/\s+/)`: the pieces between maximal runs of white space. A
      leading or trailing run yields an empty first or last piece. */
  function SplitWs(s: string): (r: seq<string>)
    ensures |r| >= 1
    decreases |s|
  {
    if s == [] then [""]
    else if IsSpace(s[0]) then [""] + SplitWs(TrimStart(s[1..]))
    else
      var rest := SplitWs(s[1..]);
      [[s[0]] + rest[0]] + rest[1..]
  }

  predicate SpaceFree(w: string) {
    forall i :: 0 <= i < |w| ==> !IsSpace(w[i])
  }

  /** No piece of `s.split(/\s+/)` contains white space. */
  lemma {:induction false} SplitWsPieces(s: string)
    ensures forall k :: 0 <= k < |SplitWs(s)| ==> SpaceFree(SplitWs(s)[k])
    decreases |s|
  {
    if s != [] {
      if IsSpace(s[0]) {
        SplitWsPieces(TrimStart(s[1..]));
      } else {
        var rest := SplitWs(s[1..]);
        SplitWsPieces(s[1..]);
        var first := [s[0]] + rest[0];
        assert SpaceFree(first) by {
          forall i | 0 <= i < |first| ensures !IsSpace(first[i]) {
            if i > 0 {
              assert first[i] == rest[0][i - 1];
            }
          }
        }
        assert SplitWs(s) == [first] + rest[1..];
      }
    }
  }

  predicate IsDecDigit(c: char) { '0' <= c <= '9' }

  predicate IsHexDigit(c: char) { IsDecDigit(c) || 'a' <= c <= 'f' || 'A' <= c <= 'F' }

  /** `c` is a digit of base `radix`, which is 10 or 16. */
  predicate IsDigitOf(c: char, radix: nat) {
    if radix == 16 then IsHexDigit(c) else IsDecDigit(c)
  }

  function HexDigitValue(c: char): (v: nat)
    requires IsHexDigit(c)
    ensures v < 16
    ensures IsDecDigit(c) ==> v < 10
  {
    if IsDecDigit(c) then c as int - '0' as int
    else if 'a' <= c <= 'f' then c as int - 'a' as int + 10
    else c as int - 'A' as int + 10
  }

  /** The length of the longest prefix of `s` made of digits of base `radix`. */
  function DigitRun(s: string, radix: nat): (n: nat)
    ensures n <= |s|
    ensures forall i :: 0 <= i < n ==> IsDigitOf(s[i], radix)
    ensures n < |s| ==> !IsDigitOf(s[n], radix)
  {
    if s != [] && IsDigitOf(s[0], radix) then 1 + DigitRun(s[1..], radix) else 0
  }

  /** The value of the longest digit prefix of `s`, read most significant
      digit first onto the accumulated value `acc`. */
  function PrefixValue(s: string, radix: nat, acc: nat): nat
  {
    if s != [] && IsDigitOf(s[0], radix) then
      PrefixValue(s[1..], radix, acc * radix + HexDigitValue(s[0]))
    else acc
  }

  /** `parseInt(s)` with no radix: skip white space, take an optional sign, a
      `0x`/`0X` prefix selects base 16, then read the longest digit prefix;
      `None` stands for NaN (no digit at all). */
  function ParseInt(s: string): (r: Option<int>)
  {
    var t := TrimStart(s);
    var neg := t != [] && t[0] == '-';
    var u := if t != [] && (t[0] == '-' || t[0] == '+') then t[1..] else t;
    var hex := |u| >= 2 && u[0] == '0' && (u[1] == 'x' || u[1] == 'X');
    var radix := if hex then 16 else 10;
    var body := if hex then u[2..] else u;
    if DigitRun(body, radix) == 0 then None
    else
      var v: int := PrefixValue(body, radix, 0);
      Some(if neg then -v else v)
  }
}
