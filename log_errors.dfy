/** The error and domain digests of web/stats.js. `digestErrors` sorts the
    error and scan entries of a log into ignored stock scans, grouped scans,
    counted rejections and push failures, and listed errors (newest first,
    at most 100); `digestDomains` counts the entries per address range and
    keeps the 25 busiest. Both group through an insertion-ordered `Map`,
    modelled as a key list plus a map, as in `LogDigest`. */
module LogErrors {
  import opened Js
  import opened Seqs
  import opened TextUtil
  import opened LogAnon
  import opened LogDigest

  // ---------------------------------------------------------------------
  // anon: strip a local path up to the installation directory

  predicate IsAsciiLetter(c: char) {
    'a' <= c <= 'z' || 'A' <= c <= 'Z'
  }

  predicate IsSlash(c: char) {
    c == '/' || c == '\\'
  }

  /** The class `[\w\-\_\.\\\/]`. */
  predicate IsPathChar(c: char) {
    IsWordChar(c) || c == '-' || c == '.' || IsSlash(c)
  }

  /** `\bmadoko[\/\\]` matches at `j`. */
  predicate MadokoAt(s: string, j: int) {
    1 <= j && j + 7 <= |s| && !IsWordChar(s[j - 1]) && s[j..j + 6] == "madoko" && IsSlash(s[j + 6])
  }

  /** The pattern of `anon` matches `s[i..j + 7]`: a drive letter, `:`, a
      slash, the path characters `s[i + 3..j]`, then `madoko` at a word
      boundary and a slash. */
  predicate PathMatch(s: string, i: int, j: int) {
    0 <= i && i + 3 <= j && MadokoAt(s, j) &&
    IsAsciiLetter(s[i]) && s[i + 1] == ':' && IsSlash(s[i + 2]) &&
    forall p :: i + 3 <= p < j ==> IsPathChar(s[p])
  }

  /** The end of the run of path characters that starts at `from`. */
  function PathRun(s: string, from: nat): (e: nat)
    requires from <= |s|
    ensures from <= e <= |s|
    ensures forall p :: from <= p < e ==> IsPathChar(s[p])
    ensures e < |s| ==> !IsPathChar(s[e])
    decreases |s| - from
  {
    if from == |s| || !IsPathChar(s[from]) then from else PathRun(s, from + 1)
  }

  /** Backtracking of the greedy `*`: the largest `j` in `lo..hi` where the
      rest of the pattern matches, -1 if there is none. */
  function Backtrack(s: string, lo: nat, hi: int): (j: int)
    ensures j == -1 || (lo <= j <= hi && MadokoAt(s, j))
    ensures forall k :: j < k <= hi && lo <= k ==> !MadokoAt(s, k)
    decreases hi - lo + 1
  {
    if hi < lo then -1
    else if MadokoAt(s, hi) then hi
    else Backtrack(s, lo, hi - 1)
  }

  /** The match that starts at `i`: where its path characters end, -1 if
      the pattern does not match at `i`. A match takes the most path
      characters it can. */
  function MatchAt(s: string, i: nat): (j: int)
    ensures j >= 0 ==> PathMatch(s, i, j) && forall k :: j < k ==> !PathMatch(s, i, k)
    ensures j < 0 ==> forall k :: !PathMatch(s, i, k)
  {
    if i + 3 <= |s| && IsAsciiLetter(s[i]) && s[i + 1] == ':' && IsSlash(s[i + 2]) then
      var e := PathRun(s, i + 3);
      Backtrack(s, i + 3, e)
    else -1
  }

  /** The leftmost match at `from` or later, as the pair of its start and
      the end of its path characters; `(-1, -1)` if there is none. */
  function FirstPathMatch(s: string, from: nat): (m: (int, int))
    ensures m.0 < 0 ==> forall i, j :: from <= i ==> !PathMatch(s, i, j)
    ensures m.0 >= 0 ==> from <= m.0 && PathMatch(s, m.0, m.1)
    ensures m.0 >= 0 ==> forall i, j :: from <= i < m.0 ==> !PathMatch(s, i, j)
    ensures m.0 >= 0 ==> forall k :: m.1 < k ==> !PathMatch(s, m.0, k)
    decreases |s| - from
  {
    if from >= |s| then (-1, -1)
    else
      var j := MatchAt(s, from);
      if j >= 0 then (from, j) else FirstPathMatch(s, from + 1)
  }

  /** `anon(s)`: the first match of the path pattern is removed. */
  function Anon(s: string): string
  {
    if s == "" then ""
    else
      var m := FirstPathMatch(s, 0);
      if m.0 < 0 then s else s[..m.0] + s[m.1 + 7..]
  }

  /** The match a regular expression search finds: the leftmost, and of
      those starting there the one whose `*` takes the most characters. */
  ghost predicate LeftmostLongest(s: string, i: int, j: int) {
    PathMatch(s, i, j) &&
    (forall i', j' :: 0 <= i' < i ==> !PathMatch(s, i', j')) &&
    (forall k :: j < k ==> !PathMatch(s, i, k))
  }

  /** The regular-expression reading of `anon`: without a match the text is
      unchanged; otherwise exactly the leftmost-longest match is cut out. */
  lemma AnonCutsLeftmostLongest(s: string)
    ensures (forall i, j :: !PathMatch(s, i, j)) ==> Anon(s) == s
    ensures (exists i, j :: PathMatch(s, i, j)) ==>
              exists i, j :: LeftmostLongest(s, i, j) && Anon(s) == s[..i] + s[j + 7..]
  {
    var m := FirstPathMatch(s, 0);
    if m.0 >= 0 {
      var i, j := m.0, m.1;
      assert LeftmostLongest(s, i, j);
      assert Anon(s) == s[..i] + s[j + 7..];
    }
  }

  // ---------------------------------------------------------------------
  // Classifying the entries

  /** `/\/templates\/NAME.mdk$/` matches: the url ends with the template
      path, any character but a line terminator, and `mdk`. */
  predicate TemplateSuffix(url: string, name: string) {
    var n := |name| + 15;
    n <= |url| && url[|url| - n..|url| - 4] == "/templates/" + name &&
    !IsLineTerminator(url[|url| - 4]) && url[|url| - 3..] == "mdk"
  }

  /** A scan of one of the stock files, which `digestErrors` ignores. */
  predicate IsStockUrl(url: string) {
    "/styles/math/math-" <= url || "/preview/math/math-" <= url ||
    TemplateSuffix(url, "article") || TemplateSuffix(url, "default") ||
    TemplateSuffix(url, "presentation") || TemplateSuffix(url, "webpage")
  }

  /** An access denied for an unknown origin. */
  predicate IsRejection(msg: string) {
    IndexOf(msg, "is not allowed access") >= 0 || IndexOf(msg, "is not on the white list") >= 0
  }

  /** A failed atomic push: `/^failed\b/` on its message. */
  predicate IsPushFailure(url: string, msg: string) {
    url == "/rest/push-atomic" && "failed" <= msg && (|msg| == 6 || !IsWordChar(msg[6]))
  }

  /** Which branch of the `digestErrors` loop an entry takes. */
  datatype Kind = Ignored | StockScan | Scan | Reject | PushFail | Listed

  function KindOf(e: Entry): Kind
  {
    if !((e.kind == "error" && e.error.Some?) || e.kind == "static-scan") then Ignored
    else if e.kind == "static-scan" then (if IsStockUrl(e.url) then StockScan else Scan)
    else if IsRejection(e.error.value) then Reject
    else if IsPushFailure(e.url, e.error.value) then PushFail
    else Listed
  }

  /** The record `digestErrors` lists for an error. */
  datatype ErrorRecord = ErrorRecord(msg: string, ip: string, domain: string, url: string, date: string)

  function ErrorRecordOf(e: Entry): ErrorRecord
    requires e.error.Some?
  {
    var msg := if e.error.value == "" then "<unknown>" else e.error.value;
    ErrorRecord(Anon(msg), AnonIP(e.ip), AnonDomain(e.domains, e.domain), AnonURL(e.url), e.date)
  }

  /** The records of the listed errors among the first `n` entries, oldest first. */
  function ListedErrors(entries: seq<Entry>, n: nat): (r: seq<ErrorRecord>)
    requires n <= |entries|
  {
    if n == 0 then []
    else
      var e := entries[n - 1];
      ListedErrors(entries, n - 1) + (if KindOf(e) == Listed then [ErrorRecordOf(e)] else [])
  }

  /** The number of the first `n` entries of kind `k`. */
  function CountOf(entries: seq<Entry>, n: nat, k: Kind): nat
    requires n <= |entries|
  {
    if n == 0 then 0 else CountOf(entries, n - 1, k) + (if KindOf(entries[n - 1]) == k then 1 else 0)
  }

  /** Every listed error has a record. */
  lemma {:induction false} ListedErrorsCount(entries: seq<Entry>, n: nat)
    requires n <= |entries|
    ensures |ListedErrors(entries, n)| == CountOf(entries, n, Listed)
  {
    if n > 0 {
      ListedErrorsCount(entries, n - 1);
    }
  }

  /** Each entry takes exactly one branch. */
  lemma {:induction false} KindsPartition(entries: seq<Entry>, n: nat)
    requires n <= |entries|
    ensures CountOf(entries, n, Ignored) + CountOf(entries, n, StockScan) + CountOf(entries, n, Scan) +
            CountOf(entries, n, Reject) + CountOf(entries, n, PushFail) + CountOf(entries, n, Listed) == n
  {
    if n > 0 {
      KindsPartition(entries, n - 1);
    }
  }

  // ---------------------------------------------------------------------
  // Grouping through an insertion-ordered Map

  /** The keys of the first `n` entries that have one, in order. */
  function KeysBy(entries: seq<Entry>, n: nat, key: Entry -> Option<string>): seq<string>
    requires n <= |entries|
  {
    if n == 0 then []
    else KeysBy(entries, n - 1, key) + (if key(entries[n - 1]).Some? then [key(entries[n - 1]).value] else [])
  }

  /** The entries among the first `n` with key `k`, in order. */
  function GroupOf(entries: seq<Entry>, n: nat, key: Entry -> Option<string>, k: string): seq<Entry>
    requires n <= |entries|
  {
    if n == 0 then []
    else GroupOf(entries, n - 1, key, k) + (if key(entries[n - 1]) == Some(k) then [entries[n - 1]] else [])
  }

  lemma {:induction false} GroupOfUsed(entries: seq<Entry>, n: nat, key: Entry -> Option<string>, k: string)
    requires n <= |entries|
    ensures GroupOf(entries, n, key, k) != [] <==> k in KeysBy(entries, n, key)
  {
    if n > 0 {
      GroupOfUsed(entries, n - 1, key, k);
    }
  }

  lemma {:induction false} GroupOfKeys(entries: seq<Entry>, n: nat, key: Entry -> Option<string>, k: string)
    requires n <= |entries|
    ensures forall p :: 0 <= p < |GroupOf(entries, n, key, k)| ==> key(GroupOf(entries, n, key, k)[p]) == Some(k)
  {
    if n > 0 {
      GroupOfKeys(entries, n - 1, key, k);
    }
  }

  lemma {:induction false} KeysByMembers(entries: seq<Entry>, n: nat, key: Entry -> Option<string>, i: nat)
    requires i < n <= |entries| && key(entries[i]).Some?
    ensures key(entries[i]).value in KeysBy(entries, n, key)
  {
    if i < n - 1 {
      KeysByMembers(entries, n - 1, key, i);
    }
  }

  /** The loop invariant of a grouping: the keys of the first `i` entries
      in order of first appearance, and under each the summary of its group. */
  ghost predicate Grouped<R>(entries: seq<Entry>, i: nat, key: Entry -> Option<string>,
                             summary: seq<Entry> -> R, keys: seq<string>, m: map<string, R>)
    requires i <= |entries|
  {
    keys == Nubbed(KeysBy(entries, i, key)) &&
    (forall k :: k in m <==> k in KeysBy(entries, i, key)) &&
    forall k :: k in m ==> m[k] == summary(GroupOf(entries, i, key, k))
  }

  /** An entry with a key updates that key's group, and adds the key when new. */
  lemma GroupedStep<R>(entries: seq<Entry>, i: nat, key: Entry -> Option<string>, summary: seq<Entry> -> R,
                       keys: seq<string>, m: map<string, R>, k: string)
    requires i < |entries| && key(entries[i]) == Some(k)
    requires Grouped(entries, i, key, summary, keys, m)
    ensures Grouped(entries, i + 1, key, summary, if k in m then keys else keys + [k],
                    m[k := summary(GroupOf(entries, i, key, k) + [entries[i]])])
  {
    NubbedSnoc(KeysBy(entries, i, key), k);
    var m' := m[k := summary(GroupOf(entries, i, key, k) + [entries[i]])];
    forall k' | k' in m' ensures m'[k'] == summary(GroupOf(entries, i + 1, key, k')) {
      if k' != k {
        assert GroupOf(entries, i + 1, key, k') == GroupOf(entries, i, key, k');
      }
    }
  }

  lemma GroupedSkip<R>(entries: seq<Entry>, i: nat, key: Entry -> Option<string>, summary: seq<Entry> -> R,
                       keys: seq<string>, m: map<string, R>)
    requires i < |entries| && key(entries[i]).None?
    requires Grouped(entries, i, key, summary, keys, m)
    ensures Grouped(entries, i + 1, key, summary, keys, m)
  {
    assert KeysBy(entries, i + 1, key) == KeysBy(entries, i, key);
    forall k | k in m ensures m[k] == summary(GroupOf(entries, i + 1, key, k)) {
      assert GroupOf(entries, i + 1, key, k) == GroupOf(entries, i, key, k);
    }
  }

  /** `map.elems()`: the values in key order. */
  function Elems<R>(keys: seq<string>, m: map<string, R>): (r: seq<R>)
    requires forall k :: k in keys ==> k in m
    ensures |r| == |keys|
    ensures forall p :: 0 <= p < |keys| ==> r[p] == m[keys[p]]
  {
    if keys == [] then []
    else
      var init := keys[..|keys| - 1];
      assert forall k :: k in init ==> k in keys;
      Elems(init, m) + [m[keys[|keys| - 1]]]
  }

  /** The values of a grouping, in key order, are the summaries of the groups. */
  lemma GroupedElems<R>(entries: seq<Entry>, key: Entry -> Option<string>, summary: seq<Entry> -> R,
                        keys: seq<string>, m: map<string, R>)
    requires Grouped(entries, |entries|, key, summary, keys, m)
    ensures forall k :: k in keys ==> k in m
    ensures Elems(keys, m) == MapTo(keys, GroupSummary(entries, key, summary), |keys|)
  {
    NubbedProps(KeysBy(entries, |entries|, key));
    var r := Elems(keys, m);
    var f := GroupSummary(entries, key, summary);
    forall p | 0 <= p < |keys| ensures r[p] == MapTo(keys, f, |keys|)[p] {
      MapToAt(keys, f, |keys|, p);
    }
  }

  /** The summary of the whole group under a key. */
  function GroupSummary<R>(entries: seq<Entry>, key: Entry -> Option<string>, summary: seq<Entry> -> R): string -> R
  {
    k => summary(GroupOf(entries, |entries|, key, k))
  }

  /** What a grouping of all the entries yields: the summaries in order of
      the keys' first appearance. */
  function GroupSummaries<R>(entries: seq<Entry>, key: Entry -> Option<string>, summary: seq<Entry> -> R): (r: seq<R>)
  {
    var keys := Nubbed(KeysBy(entries, |entries|, key));
    MapTo(keys, GroupSummary(entries, key, summary), |keys|)
  }

  /** The summaries are one per distinct key, each of that key's whole group. */
  lemma GroupSummariesAt<R>(entries: seq<Entry>, key: Entry -> Option<string>, summary: seq<Entry> -> R, p: nat)
    requires p < |Nubbed(KeysBy(entries, |entries|, key))|
    ensures var k := Nubbed(KeysBy(entries, |entries|, key))[p];
      GroupSummaries(entries, key, summary)[p] == summary(GroupOf(entries, |entries|, key, k)) &&
      GroupOf(entries, |entries|, key, k) != []
  {
    var keys := Nubbed(KeysBy(entries, |entries|, key));
    NubbedProps(KeysBy(entries, |entries|, key));
    MapToAt(keys, GroupSummary(entries, key, summary), |keys|, p);
    GroupOfUsed(entries, |entries|, key, keys[p]);
  }

  // ---------------------------------------------------------------------
  // digestErrors

  /** The scans `digestErrors` groups, by their url. */
  function ScanKey(e: Entry): Option<string>
  {
    if KindOf(e) == Scan then Some(e.url) else None
  }

  /** The record of the scans of one url. */
  datatype ScanRecord = ScanRecord(url: string, domain: string, count: nat, ip: string, date: string)

  /** The domains of `es`, concatenated. */
  function JoinedDomains(es: seq<Entry>): string
  {
    if es == [] then "" else JoinedDomains(es[..|es| - 1]) + AnonDomain(es[|es| - 1].domains, es[|es| - 1].domain)
  }

  /** A group of scans: the url and masked address of the first, the
      domains of all of them, their number and the date of the last. */
  function ScanSummary(es: seq<Entry>): ScanRecord
  {
    if es == [] then ScanRecord("", "", 0, "", "")
    else ScanRecord(es[0].url, JoinedDomains(es), |es|, AnonIP(es[0].ip), es[|es| - 1].date)
  }

  /** `getOrCreate` followed by the three updates yields the summary of the
      group with one more scan. */
  lemma ScanSummarySnoc(es: seq<Entry>, e: Entry)
    ensures var r := if es == [] then ScanRecord(e.url, "", 0, AnonIP(e.ip), "") else ScanSummary(es);
      ScanSummary(es + [e]) ==
        r.(domain := r.domain + AnonDomain(e.domains, e.domain), date := e.date, count := r.count + 1)
  {
    assert (es + [e])[..|es|] == es;
    if es == [] {
      assert JoinedDomains([e]) == JoinedDomains([]) + AnonDomain(e.domains, e.domain);
    }
  }

  /** A tally of the first `i` entries: listed errors newest first, and the counts. */
  ghost predicate Tallied(entries: seq<Entry>, i: nat, errors: seq<ErrorRecord>, rejects: nat, pushfails: nat)
    requires i <= |entries|
  {
    errors == Reversed(ListedErrors(entries, i)) &&
    rejects == CountOf(entries, i, Reject) && pushfails == CountOf(entries, i, PushFail)
  }

  lemma TalliedStep(entries: seq<Entry>, i: nat, errors: seq<ErrorRecord>, rejects: nat, pushfails: nat)
    requires i < |entries| && Tallied(entries, i, errors, rejects, pushfails)
    ensures var k := KindOf(entries[i]);
      Tallied(entries, i + 1,
              if k == Listed then [ErrorRecordOf(entries[i])] + errors else errors,
              if k == Reject then rejects + 1 else rejects,
              if k == PushFail then pushfails + 1 else pushfails)
  {
    if KindOf(entries[i]) == Listed {
      ReversedSnoc(ListedErrors(entries, i), ErrorRecordOf(entries[i]));
    } else {
      assert ListedErrors(entries, i + 1) == ListedErrors(entries, i);
    }
  }

  /** `reverse(xs)`: a missing array stays missing; otherwise each element
      in turn is put at the front. */
  method Reverse<T>(xs: Option<seq<T>>) returns (r: Option<seq<T>>)
    ensures xs.None? ==> r.None?
    ensures xs.Some? ==> r == Some(Reversed(xs.value))
  {
    if xs.None? {
      return None;
    }
    var a := xs.value;
    var res := [];
    for i := 0 to |a|
      invariant res == Reversed(a[..i])
    {
      assert a[..i + 1] == a[..i] + [a[i]];
      ReversedSnoc(a[..i], a[i]);
      res := [a[i]] + res;
    }
    assert a[..|a|] == a;
    r := Some(res);
  }

  /** What `digestErrors` returns. */
  datatype ErrorDigest = ErrorDigest(errors: seq<ErrorRecord>, rejects: nat, pushfails: nat, scans: seq<ScanRecord>)

  function ErrorsOf(entries: seq<Entry>): ErrorDigest
  {
    ErrorDigest(Take(Reversed(ListedErrors(entries, |entries|)), 100),
                CountOf(entries, |entries|, Reject), CountOf(entries, |entries|, PushFail),
                Reversed(GroupSummaries(entries, ScanKey, ScanSummary)))
  }

  /** `digestErrors(entries)`. */
  method DigestErrors(entries: seq<Entry>) returns (r: ErrorDigest)
    ensures r == ErrorsOf(entries)
  {
    var errors := [];
    var scanUrls: seq<string> := [];
    var scans: map<string, ScanRecord> := map[];
    var rejects := 0;
    var pushfails := 0;
    for i := 0 to |entries|
      invariant Tallied(entries, i, errors, rejects, pushfails)
      invariant Grouped(entries, i, ScanKey, ScanSummary, scanUrls, scans)
    {
      errors, rejects, pushfails, scanUrls, scans := DigestError(entries, i, errors, rejects, pushfails, scanUrls, scans);
    }
    GroupedElems(entries, ScanKey, ScanSummary, scanUrls, scans);
    var elems := Reverse(Some(Elems(scanUrls, scans)));
    r := ErrorDigest(Take(errors, 100), rejects, pushfails, elems.value);
  }

  /** The `entries.forEach` callback of `digestErrors`, on entry `i`. */
  method DigestError(entries: seq<Entry>, i: nat, errors: seq<ErrorRecord>, rejects: nat, pushfails: nat,
                     scanUrls: seq<string>, scans: map<string, ScanRecord>)
    returns (errors': seq<ErrorRecord>, rejects': nat, pushfails': nat,
             scanUrls': seq<string>, scans': map<string, ScanRecord>)
    requires i < |entries|
    requires Tallied(entries, i, errors, rejects, pushfails)
    requires Grouped(entries, i, ScanKey, ScanSummary, scanUrls, scans)
    ensures Tallied(entries, i + 1, errors', rejects', pushfails')
    ensures Grouped(entries, i + 1, ScanKey, ScanSummary, scanUrls', scans')
  {
    errors', rejects', pushfails', scanUrls', scans' := errors, rejects, pushfails, scanUrls, scans;
    var entry := entries[i];
    TalliedStep(entries, i, errors, rejects, pushfails);
    if !((entry.kind == "error" && entry.error.Some?) || entry.kind == "static-scan") {
      GroupedSkip(entries, i, ScanKey, ScanSummary, scanUrls, scans);
      return;
    }
    if entry.kind == "static-scan" {
      if !IsStockUrl(entry.url) {
        var url := entry.url;
        GroupedStep(entries, i, ScanKey, ScanSummary, scanUrls, scans, url);
        ScanSummarySnoc(GroupOf(entries, i, ScanKey, url), entry);
        GroupOfUsed(entries, i, ScanKey, url);
        var e := if url in scans then scans[url] else ScanRecord(url, "", 0, AnonIP(entry.ip), "");
        e := e.(domain := e.domain + AnonDomain(entry.domains, entry.domain));
        e := e.(date := entry.date);
        e := e.(count := e.count + 1);
        if url !in scans {
          scanUrls' := scanUrls + [url];
        }
        scans' := scans[url := e];
      } else {
        GroupedSkip(entries, i, ScanKey, ScanSummary, scanUrls, scans);
      }
    } else {
      GroupedSkip(entries, i, ScanKey, ScanSummary, scanUrls, scans);
      if IsRejection(entry.error.value) {
        rejects' := rejects + 1;
      } else if IsPushFailure(entry.url, entry.error.value) {
        pushfails' := pushfails + 1;
      } else {
        errors' := [ErrorRecordOf(entry)] + errors;
      }
    }
  }

  /** The summary of the `p`th url first scanned. */
  lemma ScanSummaryAt(entries: seq<Entry>, p: nat)
    requires p < |Nubbed(KeysBy(entries, |entries|, ScanKey))|
    ensures var k := Nubbed(KeysBy(entries, |entries|, ScanKey))[p];
      var r := GroupSummaries(entries, ScanKey, ScanSummary)[p];
      r.url == k && r.count >= 1 && !IsStockUrl(k) && r == ScanSummary(GroupOf(entries, |entries|, ScanKey, k))
  {
    var k := Nubbed(KeysBy(entries, |entries|, ScanKey))[p];
    GroupSummariesAt(entries, ScanKey, ScanSummary, p);
    GroupOfKeys(entries, |entries|, ScanKey, k);
    assert ScanKey(GroupOf(entries, |entries|, ScanKey, k)[0]) == Some(k);
  }

  /** The `p`th scan reported is the summary of the `p`th url counted from
      the most recently first seen. */
  lemma ScanReportedAt(entries: seq<Entry>, p: nat)
    requires p < |ErrorsOf(entries).scans|
    ensures var keys := Nubbed(KeysBy(entries, |entries|, ScanKey));
      var r := ErrorsOf(entries).scans[p];
      |keys| == |ErrorsOf(entries).scans| &&
      r.url == keys[|keys| - 1 - p] && r.count >= 1 && !IsStockUrl(r.url) &&
      r == ScanSummary(GroupOf(entries, |entries|, ScanKey, r.url))
  {
    var g := GroupSummaries(entries, ScanKey, ScanSummary);
    ReversedAt(g, p);
    ScanSummaryAt(entries, |g| - 1 - p);
  }

  /** Each reported scan is the summary of all non-stock scans of its url. */
  lemma ScansSummarize(entries: seq<Entry>)
    ensures var s := ErrorsOf(entries).scans;
      forall p :: 0 <= p < |s| ==>
        s[p].count >= 1 && !IsStockUrl(s[p].url) &&
        s[p] == ScanSummary(GroupOf(entries, |entries|, ScanKey, s[p].url))
  {
    var s := ErrorsOf(entries).scans;
    forall p | 0 <= p < |s| ensures s[p].count >= 1 && !IsStockUrl(s[p].url) &&
                                    s[p] == ScanSummary(GroupOf(entries, |entries|, ScanKey, s[p].url)) {
      ScanReportedAt(entries, p);
    }
  }

  /** No url is reported twice. */
  lemma ScansDistinct(entries: seq<Entry>)
    ensures var s := ErrorsOf(entries).scans;
      forall p, q :: 0 <= p < q < |s| ==> s[p].url != s[q].url
  {
    var s := ErrorsOf(entries).scans;
    var keys := Nubbed(KeysBy(entries, |entries|, ScanKey));
    NubbedProps(KeysBy(entries, |entries|, ScanKey));
    forall p, q | 0 <= p < q < |s| ensures s[p].url != s[q].url {
      ScanReportedAt(entries, p);
      ScanReportedAt(entries, q);
    }
  }

  /** Every url scanned, other than a stock file, is reported. */
  lemma ScansComplete(entries: seq<Entry>)
    ensures var s := ErrorsOf(entries).scans;
      forall i :: 0 <= i < |entries| && KindOf(entries[i]) == Scan ==>
        exists p :: 0 <= p < |s| && s[p].url == entries[i].url
  {
    var s := ErrorsOf(entries).scans;
    var keys := Nubbed(KeysBy(entries, |entries|, ScanKey));
    NubbedProps(KeysBy(entries, |entries|, ScanKey));
    forall i | 0 <= i < |entries| && KindOf(entries[i]) == Scan
      ensures exists p :: 0 <= p < |s| && s[p].url == entries[i].url {
      KeysByMembers(entries, |entries|, ScanKey, i);
      var q :| 0 <= q < |keys| && keys[q] == entries[i].url;
      ScanReportedAt(entries, |keys| - 1 - q);
    }
  }

  /** The listed errors `digestErrors` reports: the 100 most recent, newest
      first; rejections and push failures are only counted. */
  lemma ErrorsProps(entries: seq<Entry>)
    ensures var d := ErrorsOf(entries);
      var listed := ListedErrors(entries, |entries|);
      |d.errors| == if |listed| < 100 then |listed| else 100
    ensures var d := ErrorsOf(entries);
      var listed := ListedErrors(entries, |entries|);
      forall k :: 0 <= k < |d.errors| ==> d.errors[k] == listed[|listed| - 1 - k]
    ensures var d := ErrorsOf(entries);
      |ListedErrors(entries, |entries|)| + d.rejects + d.pushfails + CountOf(entries, |entries|, Scan) +
      CountOf(entries, |entries|, StockScan) + CountOf(entries, |entries|, Ignored) == |entries|
  {
    var listed := ListedErrors(entries, |entries|);
    forall k | 0 <= k < |ErrorsOf(entries).errors| ensures ErrorsOf(entries).errors[k] == listed[|listed| - 1 - k] {
      ReversedAt(listed, k);
    }
    ListedErrorsCount(entries, |entries|);
    KindsPartition(entries, |entries|);
  }

  // ---------------------------------------------------------------------
  // digestDomains

  /** The address range `digestDomains` counts an entry under, if it has an address. */
  function DomainKeyOf(e: Entry): Option<string>
  {
    if e.ip != "" then Some(DomainKey(e.ip)) else None
  }

  /** The record of one address range. */
  datatype DomainRecord = DomainRecord(count: nat, ip: string, domain: string)

  /** A group of entries from one address range: their number, and the
      masked address and the domain of the first. */
  function DomainSummary(es: seq<Entry>): DomainRecord
  {
    if es == [] then DomainRecord(0, "", "")
    else DomainRecord(|es|, AnonIP(es[0].ip), AnonDomain(es[0].domains, es[0].domain))
  }

  /** `getOrCreate` followed by `count++` yields the summary of the group
      with one more entry. */
  lemma DomainSummarySnoc(es: seq<Entry>, e: Entry)
    ensures var r := if es == [] then DomainRecord(0, AnonIP(e.ip), AnonDomain(e.domains, e.domain)) else DomainSummary(es);
      DomainSummary(es + [e]) == r.(count := r.count + 1)
  {
    assert (es + [e])[0] == if es == [] then e else es[0];
  }

  /** Ordered by non-increasing count. */
  predicate ByCount(xs: seq<DomainRecord>) {
    forall i, j :: 0 <= i < j < |xs| ==> xs[j].count <= xs[i].count
  }

  /** One step of a stable sort by descending count: `x` goes after every
      record whose count is at least its own. */
  function InsertByCount(sorted: seq<DomainRecord>, x: DomainRecord): seq<DomainRecord>
  {
    if sorted == [] then [x]
    else if sorted[0].count < x.count then [x] + sorted
    else [sorted[0]] + InsertByCount(sorted[1..], x)
  }

  /** `xs.sort(function(x, y) { return y.count - x.count; })`, assuming a
      stable sort, as ECMAScript 2019 and later require. */
  function SortByCount(xs: seq<DomainRecord>): seq<DomainRecord>
  {
    if xs == [] then [] else InsertByCount(SortByCount(xs[..|xs| - 1]), xs[|xs| - 1])
  }

  lemma {:induction false} InsertByCountPerm(sorted: seq<DomainRecord>, x: DomainRecord)
    ensures multiset(InsertByCount(sorted, x)) == multiset(sorted) + multiset{x}
  {
    if sorted != [] && sorted[0].count >= x.count {
      InsertByCountPerm(sorted[1..], x);
      assert sorted == [sorted[0]] + sorted[1..];
    }
  }

  /** Inserting keeps every count at or below a bound both sides respect. */
  lemma {:induction false} InsertByCountBounded(sorted: seq<DomainRecord>, x: DomainRecord, b: int)
    requires forall i :: 0 <= i < |sorted| ==> sorted[i].count <= b
    requires x.count <= b
    ensures forall i :: 0 <= i < |InsertByCount(sorted, x)| ==> InsertByCount(sorted, x)[i].count <= b
  {
    if sorted != [] && sorted[0].count >= x.count {
      InsertByCountBounded(sorted[1..], x, b);
    }
  }

  lemma {:induction false} InsertByCountSorted(sorted: seq<DomainRecord>, x: DomainRecord)
    requires ByCount(sorted)
    ensures ByCount(InsertByCount(sorted, x))
  {
    if sorted != [] && sorted[0].count >= x.count {
      var rest := sorted[1..];
      assert ByCount(rest) by {
        forall i, j | 0 <= i < j < |rest| ensures rest[j].count <= rest[i].count {
          assert rest[i] == sorted[i + 1] && rest[j] == sorted[j + 1];
        }
      }
      InsertByCountSorted(rest, x);
      InsertByCountBounded(rest, x, sorted[0].count);
      var r' := InsertByCount(rest, x);
      var r := [sorted[0]] + r';
      forall i, j | 0 <= i < j < |r| ensures r[j].count <= r[i].count {
        assert r[j] == r'[j - 1];
        if i > 0 {
          assert r[i] == r'[i - 1];
        }
      }
    }
  }

  /** Sorting orders by count and keeps every record. */
  lemma {:induction false} SortByCountProps(xs: seq<DomainRecord>)
    ensures ByCount(SortByCount(xs))
    ensures multiset(SortByCount(xs)) == multiset(xs)
  {
    if xs != [] {
      var init := xs[..|xs| - 1];
      SortByCountProps(init);
      InsertByCountPerm(SortByCount(init), xs[|xs| - 1]);
      InsertByCountSorted(SortByCount(init), xs[|xs| - 1]);
      assert xs == init + [xs[|xs| - 1]];
    }
  }

  /** What `digestDomains` returns: the 25 busiest address ranges. */
  function BusiestDomains(entries: seq<Entry>): seq<DomainRecord>
  {
    Take(SortByCount(Reversed(GroupSummaries(entries, DomainKeyOf, DomainSummary))), 25)
  }

  /** `digestDomains(entries)`. */
  method DigestDomains(entries: seq<Entry>) returns (r: seq<DomainRecord>)
    ensures r == BusiestDomains(entries)
  {
    var keys: seq<string> := [];
    var domains: map<string, DomainRecord> := map[];
    for i := 0 to |entries|
      invariant Grouped(entries, i, DomainKeyOf, DomainSummary, keys, domains)
    {
      keys, domains := CountDomain(entries, i, keys, domains);
    }
    GroupedElems(entries, DomainKeyOf, DomainSummary, keys, domains);
    var elems := Reverse(Some(Elems(keys, domains)));
    r := Take(SortByCount(elems.value), 25);
  }

  /** The `entries.forEach` callback of `digestDomains`, on entry `i`. */
  method CountDomain(entries: seq<Entry>, i: nat, keys: seq<string>, domains: map<string, DomainRecord>)
    returns (keys': seq<string>, domains': map<string, DomainRecord>)
    requires i < |entries| && Grouped(entries, i, DomainKeyOf, DomainSummary, keys, domains)
    ensures Grouped(entries, i + 1, DomainKeyOf, DomainSummary, keys', domains')
  {
    keys', domains' := keys, domains;
    var entry := entries[i];
    if entry.ip != "" {
      var key := DomainKey(entry.ip);
      GroupedStep(entries, i, DomainKeyOf, DomainSummary, keys, domains, key);
      DomainSummarySnoc(GroupOf(entries, i, DomainKeyOf, key), entry);
      GroupOfUsed(entries, i, DomainKeyOf, key);
      var e := if key in domains then domains[key]
               else DomainRecord(0, AnonIP(entry.ip), AnonDomain(entry.domains, entry.domain));
      e := e.(count := e.count + 1);
      if key !in domains {
        keys' := keys + [key];
      }
      domains' := domains[key := e];
    } else {
      GroupedSkip(entries, i, DomainKeyOf, DomainSummary, keys, domains);
    }
  }

  /** At most 25 ranges, busiest first, each with the number of its
      entries; no range left out is busier than one kept, and fewer than 25
      are kept only when there are no more. */
  lemma BusiestDomainsProps(entries: seq<Entry>)
    ensures |BusiestDomains(entries)| <= 25
    ensures ByCount(BusiestDomains(entries))
    ensures var all := GroupSummaries(entries, DomainKeyOf, DomainSummary);
      |BusiestDomains(entries)| == if |all| < 25 then |all| else 25
    ensures var all := GroupSummaries(entries, DomainKeyOf, DomainSummary);
      multiset(BusiestDomains(entries)) <= multiset(all)
    ensures var sorted := SortByCount(Reversed(GroupSummaries(entries, DomainKeyOf, DomainSummary)));
      forall i, j :: 0 <= i < |BusiestDomains(entries)| <= j < |sorted| ==> sorted[j].count <= BusiestDomains(entries)[i].count
  {
    var all := GroupSummaries(entries, DomainKeyOf, DomainSummary);
    var rev := Reversed(all);
    var sorted := SortByCount(rev);
    SortByCountProps(rev);
    ReversedMultiset(all);
    TopOfSorted(sorted, 25);
    assert |sorted| == |all| by {
      assert |multiset(sorted)| == |multiset(rev)|;
    }
  }

  /** The first `n` records of a list ordered by count are ordered, are
      among its records, and have no smaller count than any record left out. */
  lemma TopOfSorted(sorted: seq<DomainRecord>, n: nat)
    requires ByCount(sorted)
    ensures ByCount(Take(sorted, n))
    ensures multiset(Take(sorted, n)) <= multiset(sorted)
    ensures forall i, j :: 0 <= i < |Take(sorted, n)| <= j < |sorted| ==> sorted[j].count <= Take(sorted, n)[i].count
  {
    var r := Take(sorted, n);
    if |sorted| > n {
      assert sorted == r + sorted[n..];
      assert multiset(sorted) == multiset(r) + multiset(sorted[n..]);
    }
  }

  lemma {:induction false} ReversedMultiset<T>(xs: seq<T>)
    ensures multiset(Reversed(xs)) == multiset(xs)
  {
    if xs != [] {
      var init := xs[..|xs| - 1];
      ReversedMultiset(init);
      assert xs == init + [xs[|xs| - 1]];
    }
  }

  /** Every address range in the log has a record, counting its entries. */
  lemma DomainRecordsProps(entries: seq<Entry>)
    ensures var all := GroupSummaries(entries, DomainKeyOf, DomainSummary);
      var keys := Nubbed(KeysBy(entries, |entries|, DomainKeyOf));
      |all| == |keys| &&
      forall p :: 0 <= p < |all| ==> all[p].count == |GroupOf(entries, |entries|, DomainKeyOf, keys[p])| >= 1
    ensures forall i :: 0 <= i < |entries| && entries[i].ip != "" ==>
      DomainKey(entries[i].ip) in Nubbed(KeysBy(entries, |entries|, DomainKeyOf))
  {
    var keys := Nubbed(KeysBy(entries, |entries|, DomainKeyOf));
    NubbedProps(KeysBy(entries, |entries|, DomainKeyOf));
    forall p | 0 <= p < |keys|
      ensures GroupSummaries(entries, DomainKeyOf, DomainSummary)[p].count == |GroupOf(entries, |entries|, DomainKeyOf, keys[p])| >= 1 {
      GroupSummariesAt(entries, DomainKeyOf, DomainSummary, p);
    }
    forall i | 0 <= i < |entries| && entries[i].ip != "" ensures DomainKey(entries[i].ip) in keys {
      KeysByMembers(entries, |entries|, DomainKeyOf, i);
    }
  }
}
