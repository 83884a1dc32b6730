/** The anonymising rewrites of web/stats.js: `anonIP` masks the last part
    of an IP address, the domain key drops it, `anonURL` drops the query and
    the fragment of a URL, and `anonDomain` flattens the looked-up domain
    names. Each regular expression is modelled by where it matches. */
module LogAnon {
  import opened Js

  /** `\d+\s*` spanning the whole of `t`. */
  predicate DigitsThenSpace(t: string)
  {
    DigitRun(t, 10) >= 1 && forall i :: DigitRun(t, 10) <= i < |t| ==> IsSpace(t[i])
  }

  /** `\d+` spanning the whole of `t`. */
  predicate DigitsOnly(t: string)
  {
    |t| >= 1 && forall i :: 0 <= i < |t| ==> IsDecDigit(t[i])
  }

  /** Where the search for `\.` followed by `tail` up to the end of the
      input first succeeds, at `from` or later; -1 if it never does. */
  function MatchFrom(s: string, from: nat, tail: string -> bool): (k: int)
    ensures k == -1 || (from <= k < |s| && s[k] == '.' && tail(s[k + 1..]))
    decreases |s| - from
  {
    if from >= |s| then -1
    else if s[from] == '.' && tail(s[from + 1..]) then from
    else MatchFrom(s, from + 1, tail)
  }

  /** The position of the last `.` in `s`, -1 if there is none. */
  function LastDot(s: string): (k: int)
    ensures -1 <= k < |s|
    ensures k >= 0 ==> s[k] == '.'
  {
    if s == [] then -1
    else if s[|s| - 1] == '.' then |s| - 1
    else LastDot(s[..|s| - 1])
  }

  /** No `.` comes after the last one. */
  lemma {:induction false} LastDotIsLast(s: string)
    ensures forall j :: LastDot(s) < j < |s| ==> s[j] != '.'
  {
    if s != [] && s[|s| - 1] != '.' {
      var init := s[..|s| - 1];
      LastDotIsLast(init);
      assert forall j :: LastDot(s) < j < |init| ==> s[j] == init[j];
    }
  }

  /** A tail without a `.` can only follow the last `.`: the leftmost match
      is the last dot, when the text after it is a tail at all. */
  lemma {:induction false} MatchIsLastDot(s: string, from: nat, tail: string -> bool)
    requires from <= |s|
    requires forall t :: tail(t) ==> '.' !in t
    ensures MatchFrom(s, from, tail) ==
      if LastDot(s) >= from && tail(s[LastDot(s) + 1..]) then LastDot(s) else -1
    decreases |s| - from
  {
    if from < |s| {
      if s[from] == '.' && tail(s[from + 1..]) {
        DotBeforeDotFree(s, from);
      } else {
        MatchIsLastDot(s, from + 1, tail);
      }
    }
  }

  /** A `.` with no `.` after it is the last one. */
  lemma DotBeforeDotFree(s: string, k: nat)
    requires k < |s| && s[k] == '.' && '.' !in s[k + 1..]
    ensures LastDot(s) == k
  {
    LastDotIsLast(s);
    forall j | k < j < |s| ensures s[j] != '.' {
      assert s[j] == s[k + 1..][j - k - 1];
    }
  }

  /** `anonIP(ip)`: `ip.replace(/\.\d+\s*$/, ".***")`, and "" for a missing address. */
  function AnonIP(ip: string): string
  {
    if ip == "" then ""
    else
      var k := MatchFrom(ip, 0, DigitsThenSpace);
      if k < 0 then ip else ip[..k] + ".***"
  }

  lemma DigitsThenSpaceNoDot(t: string)
    requires DigitsThenSpace(t)
    ensures '.' !in t
  {
    forall i | 0 <= i < |t| ensures t[i] != '.' {
      if i < DigitRun(t, 10) {
        assert IsDigitOf(t[i], 10);
      } else {
        assert IsSpace(t[i]);
      }
    }
  }

  /** `anonIP` masks the digits after the last `.` (and the white space
      after them) with `***`; an address whose last part is not a number
      is left alone. */
  lemma AnonIPMasksLastPart(ip: string)
    ensures ip == "" ==> AnonIP(ip) == ""
    ensures ip != "" && LastDot(ip) >= 0 && DigitsThenSpace(ip[LastDot(ip) + 1..]) ==>
              AnonIP(ip) == ip[..LastDot(ip)] + ".***"
    ensures ip != "" && !(LastDot(ip) >= 0 && DigitsThenSpace(ip[LastDot(ip) + 1..])) ==> AnonIP(ip) == ip
  {
    forall t | DigitsThenSpace(t) ensures '.' !in t {
      DigitsThenSpaceNoDot(t);
    }
    MatchIsLastDot(ip, 0, DigitsThenSpace);
  }

  /** The key `digestDomains` groups an address under:
      `ip.replace(/\.\d+$/, "")`. */
  function DomainKey(ip: string): string
  {
    var k := MatchFrom(ip, 0, DigitsOnly);
    if k < 0 then ip else ip[..k]
  }

  /** The key drops the number after the last `.`, when there is one. */
  lemma DomainKeyDropsLastPart(ip: string)
    ensures LastDot(ip) >= 0 && DigitsOnly(ip[LastDot(ip) + 1..]) ==> DomainKey(ip) == ip[..LastDot(ip)]
    ensures !(LastDot(ip) >= 0 && DigitsOnly(ip[LastDot(ip) + 1..])) ==> DomainKey(ip) == ip
  {
    assert forall t :: DigitsOnly(t) ==> '.' !in t;
    MatchIsLastDot(ip, 0, DigitsOnly);
  }

  /** No line terminator in `t`, as `.*$` needs without the `m` flag. */
  predicate SingleLine(t: string)
  {
    forall i :: 0 <= i < |t| ==> !IsLineTerminator(t[i])
  }

  /** Where `/[?#].*$/` first matches in `s`, at `from` or later. */
  function CutFrom(s: string, from: nat): (k: int)
    ensures k == -1 || (from <= k < |s| && (s[k] == '?' || s[k] == '#') && SingleLine(s[k + 1..]))
    ensures k >= 0 ==> forall i :: from <= i < k ==> !((s[i] == '?' || s[i] == '#') && SingleLine(s[i + 1..]))
    ensures k == -1 ==> forall i :: from <= i < |s| ==> !((s[i] == '?' || s[i] == '#') && SingleLine(s[i + 1..]))
    decreases |s| - from
  {
    if from >= |s| then -1
    else if (s[from] == '?' || s[from] == '#') && SingleLine(s[from + 1..]) then from
    else CutFrom(s, from + 1)
  }

  /** `anonURL(s)`: `s.replace(/[?#].*$/, "")`, and "" for a missing URL. */
  function AnonURL(s: string): string
  {
    if s == "" then ""
    else
      var k := CutFrom(s, 0);
      if k < 0 then s else s[..k]
  }

  /** On a one-line URL, `anonURL` keeps exactly the part before the first
      `?` or `#`. */
  lemma AnonURLCutsAtFirst(s: string)
    requires SingleLine(s)
    ensures AnonURL(s) <= s
    ensures '?' !in AnonURL(s) && '#' !in AnonURL(s)
    ensures |AnonURL(s)| < |s| ==> s[|AnonURL(s)|] == '?' || s[|AnonURL(s)|] == '#'
  {
    if s != "" {
      var k := CutFrom(s, 0);
      forall j | 1 <= j <= |s| ensures SingleLine(s[j..]) {
        SingleLineSuffix(s, j);
      }
      if k >= 0 {
        forall i | 0 <= i < k ensures s[..k][i] != '?' && s[..k][i] != '#' {
          assert s[..k][i] == s[i];
        }
      } else {
        assert forall i :: 0 <= i < |s| ==> s[i] != '?' && s[i] != '#';
      }
    }
  }

  lemma SingleLineSuffix(s: string, j: nat)
    requires SingleLine(s) && j <= |s|
    ensures SingleLine(s[j..])
  {
    forall i | 0 <= i < |s| - j ensures !IsLineTerminator(s[j..][i]) {
      assert s[j..][i] == s[j + i];
    }
  }

  /** `anonDomain(entry.domains || entry.domain)`: the looked-up names
      joined with commas, else the recorded domain ("" when missing). */
  function AnonDomain(domains: Option<seq<string>>, domain: string): string
  {
    if domains.Some? then Join(domains.value, ",") else domain
  }

  /** The looked-up names can be read back from the report by splitting at
      the commas, as long as no name holds a comma; without a lookup the
      recorded domain is reported unchanged. */
  lemma AnonDomainReadsBack(domains: Option<seq<string>>, domain: string)
    requires domains.Some? ==> |domains.value| >= 1 && forall k :: 0 <= k < |domains.value| ==> ',' !in domains.value[k]
    ensures domains.Some? ==> Split(AnonDomain(domains, domain), ',') == domains.value
    ensures domains.None? ==> AnonDomain(domains, domain) == domain
  {
    if domains.Some? {
      SplitJoin(domains.value, ',');
    }
  }
}
