/** The class-name helpers of web/client/scripts/util.js, which treat an
    element's `className` as the white-space separated list of its classes. */
module ClassNames {
  import opened Js
  import opened TextUtil

  /** The part of a DOM element these helpers use. `None` stands for a
      missing `className`; a missing element behaves the same way. */
  class Element {
    var className: Option<string>

    constructor (cn: Option<string>)
      ensures className == cn
    {
      className := cn;
    }
  }

  /** `hasClassName(elem, cname)`: `cname` is one of the pieces of the class
      name split at white space (the empty name always is). */
  predicate HasClass(cn: Option<string>, cname: string) {
    cn.Some? && ContainsElem(SplitWs(cn.value), cname)
  }

  /** `names.filter(n => n !== cname)`. */
  function Without(names: seq<string>, cname: string): (r: seq<string>)
    ensures forall x :: x in r <==> x in names && x != cname
    ensures |r| <= |names|
    ensures |r| == |names| <==> cname !in names
    ensures (forall k :: 0 <= k < |names| ==> SpaceFree(names[k])) ==> forall k :: 0 <= k < |r| ==> SpaceFree(r[k])
  {
    if names == [] then []
    else if names[0] == cname then Without(names[1..], cname)
    else
      assert names == [names[0]] + names[1..];
      [names[0]] + Without(names[1..], cname)
  }

  /** The class name `removeClassName` leaves: the class name rejoined with
      single spaces when some piece equals `cname`, untouched otherwise. */
  function RemovedClass(cn: Option<string>, cname: string): Option<string>
  {
    if cn.None? then cn
    else
      var names := SplitWs(cn.value);
      var kept := Without(names, cname);
      if |names| != |kept| then Some(Join(kept, " ")) else cn
  }

  /** The class name `addClassName` leaves: `cname` appended after a space
      unless it is already present. */
  function AddedClass(cn: Option<string>, cname: string): Option<string>
  {
    if cn.None? || ContainsElem(SplitWs(cn.value), cname) then cn
    else Some(cn.value + " " + cname)
  }

  /** `removeClassName(elem, cname)`. */
  method RemoveClassName(e: Element, cname: string)
    modifies e
    ensures e.className == RemovedClass(old(e.className), cname)
  {
    if e.className.None? {
      return;
    }
    var cnames := e.className.value;
    var names := SplitWs(cnames);
    var newnames := Without(names, cname);
    if |names| != |newnames| {
      e.className := Some(Join(newnames, " "));
    }
  }

  /** `addClassName(elem, cname)`. */
  method AddClassName(e: Element, cname: string)
    modifies e
    ensures e.className == AddedClass(old(e.className), cname)
  {
    if e.className.None? {
      return;
    }
    var cnames := e.className.value;
    var names := SplitWs(cnames);
    var present := ContainsLoop(names, cname);
    if !present {
      e.className := Some(cnames + " " + cname);
    }
  }

  /** `toggleClassName(elem, cname)`: remove when present, add otherwise. */
  method ToggleClassName(e: Element, cname: string)
    modifies e
    ensures e.className == if HasClass(old(e.className), cname) then RemovedClass(old(e.className), cname)
                           else AddedClass(old(e.className), cname)
    ensures old(e.className).Some? && cname != "" && SpaceFree(cname) ==>
      HasClass(e.className, cname) == !HasClass(old(e.className), cname)
  {
    var cn := e.className;
    if HasClass(cn, cname) {
      RemoveClassName(e, cname);
      if cname != "" {
        RemoveMakesAbsent(cn, cname);
      }
    } else {
      AddClassName(e, cname);
      if cn.Some? && SpaceFree(cname) {
        AddMakesPresent(cn, cname);
      }
    }
  }

  lemma {:induction false} TrimStartConcat(u: string, v: string)
    ensures TrimStart(u + v) == if TrimStart(u) == [] then TrimStart(v) else TrimStart(u) + v
  {
    if u != [] {
      assert (u + v)[0] == u[0];
      if IsSpace(u[0]) {
        assert (u + v)[1..] == u[1..] + v;
        TrimStartConcat(u[1..], v);
      }
    } else {
      assert u + v == v;
    }
  }

  /** A name without white space is split into itself. */
  lemma {:induction false} SplitWsWord(w: string)
    requires SpaceFree(w)
    ensures SplitWs(w) == [w]
  {
    if w != [] {
      SplitWsWord(w[1..]);
      assert [w[0]] + w[1..] == w;
    }
  }

  /** A space-free piece followed by a space is the first piece. */
  lemma {:induction false} SplitWsSep(p: string, t: string)
    requires SpaceFree(p)
    ensures SplitWs(p + [' '] + t) == [p] + SplitWs(TrimStart(t))
  {
    var s := p + [' '] + t;
    if p == [] {
      assert s == [' '] + t && s[1..] == t;
    } else {
      var p1 := p[1..];
      assert s[1..] == p1 + [' '] + t;
      assert SpaceFree(p1) by {
        forall i | 0 <= i < |p1| ensures !IsSpace(p1[i]) {
          assert p1[i] == p[i + 1];
        }
      }
      SplitWsSep(p1, t);
      var rest := SplitWs(p1 + [' '] + t);
      assert rest == [p1] + SplitWs(TrimStart(t));
      assert !IsSpace(s[0]);
      calc {
        SplitWs(s);
        [[s[0]] + SplitWs(s[1..])[0]] + SplitWs(s[1..])[1..];
        [[p[0]] + rest[0]] + rest[1..];
        { assert [p[0]] + p1 == p; }
        [p] + SplitWs(TrimStart(t));
      }
    }
  }

  /** Leading white space contributes only the empty first piece. */
  lemma SplitWsTrim(t: string)
    ensures forall x :: x in SplitWs(TrimStart(t)) ==> x in SplitWs(t)
  {
    if t != [] && IsSpace(t[0]) {
      assert SplitWs(t) == [""] + SplitWs(TrimStart(t[1..]));
    }
  }

  /** Splitting class names joined with single spaces gives back those names,
      plus possibly empty pieces. */
  lemma {:induction false} SplitJoinPieces(ps: seq<string>)
    requires |ps| >= 1
    requires forall k :: 0 <= k < |ps| ==> SpaceFree(ps[k])
    ensures forall x :: x in SplitWs(Join(ps, " ")) ==> x == "" || x in ps
  {
    if |ps| == 1 {
      SplitWsWord(ps[0]);
    } else {
      var rest := Join(ps[1..], " ");
      JoinCons(ps, " ");
      assert Join(ps, " ") == ps[0] + [' '] + rest;
      SplitWsSep(ps[0], rest);
      SplitWsTrim(rest);
      SplitJoinPieces(ps[1..]);
      CollectPieces(ps, SplitWs(Join(ps, " ")), SplitWs(TrimStart(rest)), SplitWs(rest));
    }
  }

  lemma CollectPieces(ps: seq<string>, whole: seq<string>, trimmed: seq<string>, tail: seq<string>)
    requires |ps| >= 1 && whole == [ps[0]] + trimmed
    requires forall x :: x in trimmed ==> x in tail
    requires forall x :: x in tail ==> x == "" || x in ps[1..]
    ensures forall x :: x in whole ==> x == "" || x in ps
  {
    forall x | x in whole ensures x == "" || x in ps {
      if x != ps[0] && x != "" {
        assert x in ps[1..];
      }
    }
  }

  function Last(ps: seq<string>): string
    requires |ps| >= 1
  {
    ps[|ps| - 1]
  }

  lemma LastCons(x: string, ps: seq<string>)
    requires |ps| >= 1
    ensures Last([x] + ps) == Last(ps)
  {
  }

  lemma AppendSpaceTail(s: string, w: string)
    requires s != []
    ensures (s + [' '] + w)[0] == s[0]
    ensures (s + [' '] + w)[1..] == s[1..] + [' '] + w
    ensures (s + [' '] + w)[1..] == s[1..] + ([' '] + w)
  {
  }

  /** A space-free name appended after a space becomes the last piece. */
  lemma {:induction false} SplitWsAppendWord(s: string, w: string)
    requires SplitWs(w) == [w] && TrimStart(w) == w
    ensures |SplitWs(s + [' '] + w)| >= 2
    ensures Last(SplitWs(s + [' '] + w)) == w
    decreases |s|, 1
  {
    if s == [] {
      var t := s + [' '] + w;
      assert t == [' '] + w && t[1..] == w;
      assert SplitWs(t) == [""] + [w];
    } else if IsSpace(s[0]) {
      AppendWordAfterSpace(s, w);
    } else {
      AppendWordAfterChar(s, w);
    }
  }

  lemma {:induction false} AppendWordAfterSpace(s: string, w: string)
    requires SplitWs(w) == [w] && TrimStart(w) == w
    requires s != [] && IsSpace(s[0])
    ensures |SplitWs(s + [' '] + w)| >= 2
    ensures Last(SplitWs(s + [' '] + w)) == w
    decreases |s|, 0
  {
    var t := s + [' '] + w;
    AppendSpaceTail(s, w);
    TrimStartConcat(s[1..], [' '] + w);
    var u := TrimStart(s[1..]);
    var r' := SplitWs(TrimStart(t[1..]));
    assert SplitWs(t) == [""] + r';
    if u == [] {
      assert TrimStart([' '] + w) == TrimStart(w) == w;
      assert r' == [w];
    } else {
      assert u + ([' '] + w) == u + [' '] + w;
      SplitWsAppendWord(u, w);
    }
    LastCons("", r');
  }

  lemma {:induction false} AppendWordAfterChar(s: string, w: string)
    requires SplitWs(w) == [w] && TrimStart(w) == w
    requires s != [] && !IsSpace(s[0])
    ensures |SplitWs(s + [' '] + w)| >= 2
    ensures Last(SplitWs(s + [' '] + w)) == w
    decreases |s|, 0
  {
    var t := s + [' '] + w;
    AppendSpaceTail(s, w);
    SplitWsAppendWord(s[1..], w);
    var rest := SplitWs(s[1..] + [' '] + w);
    calc {
      SplitWs(t);
      [[t[0]] + SplitWs(t[1..])[0]] + SplitWs(t[1..])[1..];
      [[t[0]] + rest[0]] + rest[1..];
    }
    assert Last(SplitWs(t)) == Last(rest);
  }

  /** After `addClassName` with a space-free name the element has the class. */
  lemma AddMakesPresent(cn: Option<string>, cname: string)
    requires cn.Some? && SpaceFree(cname)
    ensures HasClass(AddedClass(cn, cname), cname)
  {
    if cname != "" && !ContainsElem(SplitWs(cn.value), cname) {
      SplitWsWord(cname);
      SplitWsAppendWord(cn.value, cname);
      assert cn.value + " " + cname == cn.value + [' '] + cname;
    }
  }

  /** After `removeClassName` with a non-empty name the element lacks the class. */
  lemma RemoveMakesAbsent(cn: Option<string>, cname: string)
    requires cname != ""
    ensures !HasClass(RemovedClass(cn, cname), cname)
  {
    if cn.Some? {
      var names := SplitWs(cn.value);
      var kept := Without(names, cname);
      if |names| != |kept| {
        SplitWsPieces(cn.value);
        if kept == [] {
          assert Join(kept, " ") == "";
        } else {
          SplitJoinPieces(kept);
        }
      }
    }
  }
}
