/** The per-user and per-day digests of web/stats.js. A log entry is a
    record; `digestUsers` groups the entries by user and measures each
    user's working time, `digestDaily` groups them by day, summarises each
    day and counts the users seen so far. Every grouping `Map` keeps its
    keys in insertion order, so a group list is a key list (first
    occurrences, `Nubbed`) plus a map from key to the group. */
module LogDigest {
  import opened Js
  import opened Seqs
  import opened StatNumbers
  import opened LogAnon

  /** One log entry, with the fields the digests read. `stamp` is
      `dateFromISO(date).getTime()`; `user` is `entry.user.id`, `None` when
      the user or its id is missing; `files` holds the sizes of the files of
      a run; `error` is the message of `entry.error` ("" when it has none). */
  datatype Entry = Entry(
    date: string, stamp: int, user: Option<string>, url: string, kind: string,
    time: int, size: int, files: Option<seq<int>>, pagesCount: int,
    pages: seq<(string, int)>, ip: string, domains: Option<seq<string>>,
    domain: string, error: Option<string>)

  /** Ten minutes: a longer pause ends a working session. */
  const SessionGap := 600000
  /** One minute: the working time every user starts with. */
  const FirstMinute := 60000

  // ---------------------------------------------------------------------
  // Working time

  /** The running total of the working time and the last counted stamp
      (`prevTime`, 0 before the first entry). */
  datatype Tally = Tally(total: int, prev: int)

  /** One entry of the working-time loop: the first entry only sets the
      previous stamp; a later one adds its distance to the previous stamp
      when that is under ten minutes, and is ignored otherwise. */
  function WorkStep(t: Tally, next: int): Tally
  {
    if t.prev == 0 then Tally(t.total, next)
    else if t.prev + SessionGap > next then Tally(t.total + (next - t.prev), next)
    else t
  }

  /** The tally after the first `n` stamps. */
  function WorkFold(stamps: seq<int>, n: nat): Tally
    requires n <= |stamps|
  {
    if n == 0 then Tally(FirstMinute, 0) else WorkStep(WorkFold(stamps, n - 1), stamps[n - 1])
  }

  function WorkTimeOf(stamps: seq<int>): int
  {
    WorkFold(stamps, |stamps|).total
  }

  /** The millisecond stamps of `es`, in order. */
  function Stamps(es: seq<Entry>): (r: seq<int>)
    ensures |r| == |es|
  {
    if es == [] then [] else Stamps(es[..|es| - 1]) + [es[|es| - 1].stamp]
  }

  lemma {:induction false} StampsAt(es: seq<Entry>, k: nat)
    requires k < |es|
    ensures Stamps(es)[k] == es[k].stamp
  {
    if k < |es| - 1 {
      StampsAt(es[..|es| - 1], k);
    }
  }

  /** The working time of one user's entries, as the `uentries.forEach`
      loop of `digestUsers` computes it. */
  method WorkTime(es: seq<Entry>) returns (total: int)
    ensures total == WorkTimeOf(Stamps(es))
  {
    ghost var stamps := Stamps(es);
    total := FirstMinute;
    var prevTime := 0;
    for i := 0 to |es|
      invariant Tally(total, prevTime) == WorkFold(stamps, i)
    {
      var nextTime := es[i].stamp;
      StampsAt(es, i);
      if prevTime == 0 {
        prevTime := nextTime;
      } else if prevTime + SessionGap > nextTime {
        total := total + (nextTime - prevTime);
        prevTime := nextTime;
      }
    }
  }

  /** Stamps in log order: never decreasing, and after the epoch. */
  predicate Chronological(stamps: seq<int>)
  {
    (forall i, j :: 0 <= i < j < |stamps| ==> stamps[i] <= stamps[j]) &&
    forall i :: 0 <= i < |stamps| ==> stamps[i] > 0
  }

  lemma {:induction false} WorkFoldBounds(stamps: seq<int>, n: nat)
    requires Chronological(stamps) && 1 <= n <= |stamps|
    ensures stamps[0] <= WorkFold(stamps, n).prev <= stamps[n - 1]
    ensures FirstMinute <= WorkFold(stamps, n).total <= FirstMinute + WorkFold(stamps, n).prev - stamps[0]
  {
    if n > 1 {
      WorkFoldBounds(stamps, n - 1);
    }
  }

  /** A user's working time is at least a minute and at most a minute more
      than the span from the first to the last entry. */
  lemma WorkTimeBounds(stamps: seq<int>)
    requires Chronological(stamps)
    ensures stamps == [] ==> WorkTimeOf(stamps) == FirstMinute
    ensures stamps != [] ==>
      FirstMinute <= WorkTimeOf(stamps) <= FirstMinute + stamps[|stamps| - 1] - stamps[0]
  {
    if stamps != [] {
      WorkFoldBounds(stamps, |stamps|);
    }
  }

  /** As written, a pause of ten minutes or more stops the count for good:
      the previous stamp is only moved by a counted entry, so every later
      entry is measured against the entry before the pause. */
  lemma {:induction false} BreakEndsCounting(stamps: seq<int>, k: nat, n: nat)
    requires Chronological(stamps) && 1 <= k <= n <= |stamps| && k < |stamps|
    requires WorkFold(stamps, k).prev + SessionGap <= stamps[k]
    ensures WorkFold(stamps, n) == WorkFold(stamps, k)
  {
    if n > k {
      BreakEndsCounting(stamps, k, n - 1);
      WorkFoldBounds(stamps, k);
      assert stamps[k] <= stamps[n - 1];
    }
  }

  /** Two sessions of a minute apart and ten minutes between them: the
      second session is not counted. */
  lemma WorkAfterBreakIgnored()
    ensures WorkTimeOf([1, 1 + SessionGap, 2 + SessionGap]) == FirstMinute
    ensures SessionTimeOf([1, 1 + SessionGap, 2 + SessionGap]) == FirstMinute + 1
  {
    var stamps := [1, 1 + SessionGap, 2 + SessionGap];
    assert WorkFold(stamps, 1) == Tally(FirstMinute, 1);
    assert WorkFold(stamps, 2) == Tally(FirstMinute, 1);
    assert SessionFold(stamps, 1) == Tally(FirstMinute, 1);
    assert SessionFold(stamps, 2) == Tally(FirstMinute, 1 + SessionGap);
  }

  /** The evidently intended step: every entry becomes the previous one,
      so a pause only leaves its own gap uncounted. */
  function SessionStep(t: Tally, next: int): Tally
  {
    if t.prev == 0 then Tally(t.total, next)
    else if t.prev + SessionGap > next then Tally(t.total + (next - t.prev), next)
    else Tally(t.total, next)
  }

  function SessionFold(stamps: seq<int>, n: nat): Tally
    requires n <= |stamps|
  {
    if n == 0 then Tally(FirstMinute, 0) else SessionStep(SessionFold(stamps, n - 1), stamps[n - 1])
  }

  function SessionTimeOf(stamps: seq<int>): int
  {
    SessionFold(stamps, |stamps|).total
  }

  /** The sum of the gaps under ten minutes between consecutive stamps
      among the first `n`. */
  function ShortGaps(stamps: seq<int>, n: nat): int
    requires 1 <= n <= |stamps|
  {
    if n == 1 then 0
    else
      var gap := stamps[n - 1] - stamps[n - 2];
      ShortGaps(stamps, n - 1) + (if gap < SessionGap then gap else 0)
  }

  /** With the intended step the working time is a minute plus every
      short gap between consecutive entries. */
  lemma {:induction false} SessionFoldCountsShortGaps(stamps: seq<int>, n: nat)
    requires Chronological(stamps) && 1 <= n <= |stamps|
    ensures SessionFold(stamps, n) == Tally(FirstMinute + ShortGaps(stamps, n), stamps[n - 1])
  {
    if n > 1 {
      SessionFoldCountsShortGaps(stamps, n - 1);
    }
  }

  // ---------------------------------------------------------------------
  // digestUsers

  /** The record `digestUsers` builds for a user. */
  datatype UserStat = UserStat(workTime: int, reqCount: nat, id: string)

  /** The user ids of the first `n` entries, in order, with repetitions. */
  function UserIds(entries: seq<Entry>, n: nat): seq<string>
    requires n <= |entries|
  {
    if n == 0 then []
    else UserIds(entries, n - 1) + (if entries[n - 1].user.Some? then [entries[n - 1].user.value] else [])
  }

  lemma {:induction false} UserIdsMembers(entries: seq<Entry>, n: nat)
    requires n <= |entries|
    ensures forall x :: x in UserIds(entries, n) <==> exists i :: 0 <= i < n && entries[i].user == Some(x)
  {
    if n > 0 {
      UserIdsMembers(entries, n - 1);
    }
  }

  /** The entries of user `id` among the first `n`, in order. */
  function EntriesOf(entries: seq<Entry>, n: nat, id: string): seq<Entry>
    requires n <= |entries|
  {
    if n == 0 then []
    else EntriesOf(entries, n - 1, id) + (if entries[n - 1].user == Some(id) then [entries[n - 1]] else [])
  }

  lemma {:induction false} EntriesOfUsed(entries: seq<Entry>, n: nat, id: string)
    requires n <= |entries|
    ensures EntriesOf(entries, n, id) != [] <==> id in UserIds(entries, n)
  {
    if n > 0 {
      EntriesOfUsed(entries, n - 1, id);
    }
  }

  function UserStatOf(entries: seq<Entry>, id: string): UserStat
  {
    var es := EntriesOf(entries, |entries|, id);
    UserStat(WorkTimeOf(Stamps(es)), |es|, id)
  }

  /** The records of the first `n` of `ids`. */
  function StatsFor(entries: seq<Entry>, ids: seq<string>, n: nat): (r: seq<UserStat>)
    requires n <= |ids|
    ensures |r| == n
  {
    if n == 0 then [] else StatsFor(entries, ids, n - 1) + [UserStatOf(entries, ids[n - 1])]
  }

  /** What `digestUsers(entries)` returns: one record per user, in the
      order the users first appear. */
  function UserStats(entries: seq<Entry>): seq<UserStat>
  {
    var ids := Nubbed(UserIds(entries, |entries|));
    StatsFor(entries, ids, |ids|)
  }

  /** `users.map(function(entry) { return entry.id; })`. */
  function Ids(stats: seq<UserStat>): (r: seq<string>)
    ensures |r| == |stats|
  {
    if stats == [] then [] else Ids(stats[..|stats| - 1]) + [stats[|stats| - 1].id]
  }

  /** `users.map(function(entry) { return entry.workTime; })`. */
  function WorkTimes(stats: seq<UserStat>): (r: seq<int>)
    ensures |r| == |stats|
  {
    if stats == [] then [] else WorkTimes(stats[..|stats| - 1]) + [stats[|stats| - 1].workTime]
  }

  lemma {:induction false} StatsForIds(entries: seq<Entry>, ids: seq<string>, n: nat)
    requires n <= |ids|
    ensures Ids(StatsFor(entries, ids, n)) == ids[..n]
  {
    if n > 0 {
      StatsForIds(entries, ids, n - 1);
      var r := StatsFor(entries, ids, n);
      assert r[..n - 1] == StatsFor(entries, ids, n - 1);
      assert r[n - 1].id == ids[n - 1];
      assert Ids(r) == ids[..n - 1] + [ids[n - 1]];
      assert ids[..n] == ids[..n - 1] + [ids[n - 1]];
    }
  }

  lemma {:induction false} StatsForAt(entries: seq<Entry>, ids: seq<string>, n: nat, k: nat)
    requires k < n <= |ids|
    ensures StatsFor(entries, ids, n)[k] == UserStatOf(entries, ids[k])
  {
    if k < n - 1 {
      StatsForAt(entries, ids, n - 1, k);
    }
  }

  lemma StatsForProps(entries: seq<Entry>, ids: seq<string>, n: nat)
    requires n <= |ids|
    ensures Ids(StatsFor(entries, ids, n)) == ids[..n]
    ensures forall k :: 0 <= k < n ==> StatsFor(entries, ids, n)[k] == UserStatOf(entries, ids[k])
  {
    StatsForIds(entries, ids, n);
    forall k | 0 <= k < n ensures StatsFor(entries, ids, n)[k] == UserStatOf(entries, ids[k]) {
      StatsForAt(entries, ids, n, k);
    }
  }

  /** `digestUsers` lists every user that has an entry exactly once, in
      order of first appearance, and each with the number of its entries. */
  lemma UserStatsProps(entries: seq<Entry>)
    ensures Ids(UserStats(entries)) == Nubbed(UserIds(entries, |entries|))
    ensures NoDuplicates(Ids(UserStats(entries)))
    ensures forall x :: x in Ids(UserStats(entries)) <==>
              exists i :: 0 <= i < |entries| && entries[i].user == Some(x)
    ensures forall k :: 0 <= k < |UserStats(entries)| ==>
              UserStats(entries)[k] == UserStatOf(entries, UserStats(entries)[k].id) &&
              UserStats(entries)[k].reqCount >= 1
  {
    var ids := Nubbed(UserIds(entries, |entries|));
    StatsForProps(entries, ids, |ids|);
    assert ids[..|ids|] == ids;
    NubbedProps(UserIds(entries, |entries|));
    UserIdsMembers(entries, |entries|);
    var r := UserStats(entries);
    forall k | 0 <= k < |r|
      ensures r[k] == UserStatOf(entries, r[k].id) && r[k].reqCount >= 1
    {
      EntriesOfUsed(entries, |entries|, ids[k]);
    }
  }

  /** The state of the grouping loop of `digestUsers` after `i` entries. */
  ghost predicate UsersGrouped(entries: seq<Entry>, i: nat, keys: seq<string>, users: map<string, seq<Entry>>)
    requires i <= |entries|
  {
    keys == Nubbed(UserIds(entries, i)) &&
    (forall id :: id in users <==> id in UserIds(entries, i)) &&
    forall id :: id in users ==> users[id] == EntriesOf(entries, i, id)
  }

  lemma GroupUserStep(entries: seq<Entry>, i: nat, keys: seq<string>, users: map<string, seq<Entry>>, id: string,
                      keys': seq<string>, users': map<string, seq<Entry>>)
    requires i < |entries| && entries[i].user == Some(id)
    requires UsersGrouped(entries, i, keys, users)
    requires keys' == if id in users then keys else keys + [id]
    requires users' == if id in users then users[id := users[id] + [entries[i]]] else users[id := [entries[i]]]
    ensures UsersGrouped(entries, i + 1, keys', users')
  {
    var ids := UserIds(entries, i);
    assert UserIds(entries, i + 1) == ids + [id];
    NubbedSnoc(ids, id);
    GroupUserValues(entries, i, users, id, users');
  }

  /** One more entry of user `id` changes only that user's list. */
  lemma GroupUserValues(entries: seq<Entry>, i: nat, users: map<string, seq<Entry>>, id: string,
                        users': map<string, seq<Entry>>)
    requires i < |entries| && entries[i].user == Some(id)
    requires forall k :: k in users <==> k in UserIds(entries, i)
    requires forall k :: k in users ==> users[k] == EntriesOf(entries, i, k)
    requires users' == if id in users then users[id := users[id] + [entries[i]]] else users[id := [entries[i]]]
    ensures forall k :: k in users' ==> users'[k] == EntriesOf(entries, i + 1, k)
  {
    if id !in users {
      EntriesOfUsed(entries, i, id);
    }
    forall k | k in users' ensures users'[k] == EntriesOf(entries, i + 1, k) {
      if k != id {
        assert EntriesOf(entries, i + 1, k) == EntriesOf(entries, i, k);
      }
    }
  }

  /** The `entries.forEach` loop of `digestUsers`: each entry with a user
      id is appended to that user's list. */
  method GroupByUser(entries: seq<Entry>) returns (keys: seq<string>, users: map<string, seq<Entry>>)
    ensures keys == Nubbed(UserIds(entries, |entries|))
    ensures forall id :: id in users <==> id in UserIds(entries, |entries|)
    ensures forall id :: id in users ==> users[id] == EntriesOf(entries, |entries|, id)
  {
    keys := [];
    users := map[];
    for i := 0 to |entries|
      invariant UsersGrouped(entries, i, keys, users)
    {
      var entry := entries[i];
      if entry.user.Some? {
        var id := entry.user.value;
        if id in users {
          GroupUserStep(entries, i, keys, users, id, keys, users[id := users[id] + [entry]]);
          users := users[id := users[id] + [entry]];
        } else {
          GroupUserStep(entries, i, keys, users, id, keys + [id], users[id := [entry]]);
          keys, users := keys + [id], users[id := [entry]];
        }
      } else {
        GroupUserSkip(entries, i, keys, users);
      }
    }
  }

  lemma GroupUserSkip(entries: seq<Entry>, i: nat, keys: seq<string>, users: map<string, seq<Entry>>)
    requires i < |entries| && entries[i].user.None?
    requires UsersGrouped(entries, i, keys, users)
    ensures UsersGrouped(entries, i + 1, keys, users)
  {
    assert UserIds(entries, i + 1) == UserIds(entries, i);
  }

  /** `digestUsers(entries)`. */
  method DigestUsers(entries: seq<Entry>) returns (r: seq<UserStat>)
    ensures r == UserStats(entries)
  {
    var keys, users := GroupByUser(entries);
    NubbedProps(UserIds(entries, |entries|));
    r := [];
    for j := 0 to |keys|
      invariant r == StatsFor(entries, keys, j)
    {
      var uentries := users[keys[j]];
      var total := WorkTime(uentries);
      r := r + [UserStat(total, |uentries|, keys[j])];
    }
  }

  // ---------------------------------------------------------------------
  // digestDaily

  /** The first position at `from` or later holding a `T`, else `|s|`. */
  function FindT(s: string, from: nat): (k: nat)
    requires from <= |s|
    ensures from <= k <= |s|
    ensures k < |s| ==> s[k] == 'T'
    ensures forall i :: from <= i < k ==> s[i] != 'T'
    decreases |s| - from
  {
    if from == |s| || s[from] == 'T' then from else FindT(s, from + 1)
  }

  /** The first line terminator at `from` or later, else `|s|`: where a
      `.*` starting at `from` stops. */
  function LineEnd(s: string, from: nat): (k: nat)
    requires from <= |s|
    ensures from <= k <= |s|
    decreases |s| - from
  {
    if from == |s| || IsLineTerminator(s[from]) then from else LineEnd(s, from + 1)
  }

  /** The day of a date: `date.replace` of the pattern `T.*` by "", so the first `T` and the rest of its line go. */
  function DayKey(date: string): string
  {
    var t := FindT(date, 0);
    if t == |date| then date else date[..t] + date[LineEnd(date, t)..]
  }

  /** On a one-line ISO date the key is the part before the `T`. */
  lemma DayKeyIsDatePart(date: string)
    requires SingleLine(date)
    ensures DayKey(date) <= date
    ensures 'T' !in DayKey(date)
    ensures |DayKey(date)| < |date| ==> date[|DayKey(date)|] == 'T'
  {
    var t := FindT(date, 0);
    if t < |date| {
      LineEndSingle(date, t);
      assert DayKey(date) == date[..t];
    }
  }

  lemma {:induction false} LineEndSingle(s: string, from: nat)
    requires SingleLine(s) && from <= |s|
    ensures LineEnd(s, from) == |s|
    decreases |s| - from
  {
    if from < |s| {
      LineEndSingle(s, from + 1);
    }
  }

  /** The size normalisation of `digestDaily`: an entry without a size
      gets the total size of its files, or 0 when it has none. */
  function Normalized(e: Entry): Entry
  {
    if e.size != 0 then e else e.(size := Total(Elements(e.files)))
  }

  /** The day keys of the first `n` entries, with repetitions. */
  function DayKeys(entries: seq<Entry>, n: nat): (r: seq<string>)
    requires n <= |entries|
    ensures |r| == n
  {
    if n == 0 then [] else DayKeys(entries, n - 1) + [DayKey(entries[n - 1].date)]
  }

  lemma {:induction false} DayKeysAt(entries: seq<Entry>, n: nat, i: nat)
    requires i < n <= |entries|
    ensures DayKeys(entries, n)[i] == DayKey(entries[i].date)
  {
    if i < n - 1 {
      DayKeysAt(entries, n - 1, i);
    }
  }

  /** The normalised entries of day `day` among the first `n`, in order. */
  function DayEntries(entries: seq<Entry>, n: nat, day: string): seq<Entry>
    requires n <= |entries|
  {
    if n == 0 then []
    else DayEntries(entries, n - 1, day) + (if DayKey(entries[n - 1].date) == day then [Normalized(entries[n - 1])] else [])
  }

  lemma {:induction false} DayEntriesUsed(entries: seq<Entry>, n: nat, day: string)
    requires n <= |entries|
    ensures DayEntries(entries, n, day) != [] <==> day in DayKeys(entries, n)
  {
    if n > 0 {
      DayEntriesUsed(entries, n - 1, day);
    }
  }

  /** The loop invariant of `GroupByDay`: the first `i` entries grouped. */
  ghost predicate DaysGrouped(entries: seq<Entry>, i: nat, keys: seq<string>, daily: map<string, seq<Entry>>)
    requires i <= |entries|
  {
    keys == Nubbed(DayKeys(entries, i)) &&
    (forall d :: d in daily <==> d in DayKeys(entries, i)) &&
    forall d :: d in daily ==> daily[d] == DayEntries(entries, i, d)
  }

  lemma GroupDayStep(entries: seq<Entry>, i: nat, keys: seq<string>, daily: map<string, seq<Entry>>, date: string,
                     keys': seq<string>, daily': map<string, seq<Entry>>)
    requires i < |entries| && date == DayKey(entries[i].date)
    requires DaysGrouped(entries, i, keys, daily)
    requires keys' == if date in daily then keys else keys + [date]
    requires daily' == if date in daily then daily[date := daily[date] + [Normalized(entries[i])]]
                       else daily[date := [Normalized(entries[i])]]
    ensures DaysGrouped(entries, i + 1, keys', daily')
  {
    NubbedSnoc(DayKeys(entries, i), date);
    GroupDayValues(entries, i, daily, date, daily');
  }

  /** One more entry of day `date` changes only that day's list. */
  lemma GroupDayValues(entries: seq<Entry>, i: nat, daily: map<string, seq<Entry>>, date: string,
                       daily': map<string, seq<Entry>>)
    requires i < |entries| && date == DayKey(entries[i].date)
    requires forall d :: d in daily <==> d in DayKeys(entries, i)
    requires forall d :: d in daily ==> daily[d] == DayEntries(entries, i, d)
    requires daily' == if date in daily then daily[date := daily[date] + [Normalized(entries[i])]]
                       else daily[date := [Normalized(entries[i])]]
    ensures forall d :: d in daily' ==> daily'[d] == DayEntries(entries, i + 1, d)
  {
    if date !in daily {
      DayEntriesUsed(entries, i, date);
    }
    forall d | d in daily' ensures daily'[d] == DayEntries(entries, i + 1, d) {
      if d != date {
        assert DayEntries(entries, i + 1, d) == DayEntries(entries, i, d);
      }
    }
  }

  /** The `entries.forEach` loop of `digestDaily`: each entry, its size
      filled in, is appended to the list of its day. */
  method GroupByDay(entries: seq<Entry>) returns (keys: seq<string>, daily: map<string, seq<Entry>>)
    ensures keys == Nubbed(DayKeys(entries, |entries|))
    ensures forall d :: d in daily <==> d in DayKeys(entries, |entries|)
    ensures forall d :: d in daily ==> daily[d] == DayEntries(entries, |entries|, d)
  {
    keys := [];
    daily := map[];
    for i := 0 to |entries|
      invariant DaysGrouped(entries, i, keys, daily)
    {
      var entry := Normalized(entries[i]);
      var date := DayKey(entries[i].date);
      if date in daily {
        GroupDayStep(entries, i, keys, daily, date, keys, daily[date := daily[date] + [entry]]);
        daily := daily[date := daily[date] + [entry]];
      } else {
        GroupDayStep(entries, i, keys, daily, date, keys + [date], daily[date := [entry]]);
        keys, daily := keys + [date], daily[date := [entry]];
      }
    }
  }

  /** The entries of `es` that `keep` accepts, in order. */
  function Where(es: seq<Entry>, keep: Entry -> bool): seq<Entry>
  {
    if es == [] then []
    else Where(es[..|es| - 1], keep) + (if keep(es[|es| - 1]) then [es[|es| - 1]] else [])
  }

  /** `es.map(f)`. */
  function Project(es: seq<Entry>, f: Entry -> int): (r: seq<int>)
    ensures |r| == |es|
  {
    if es == [] then [] else Project(es[..|es| - 1], f) + [f(es[|es| - 1])]
  }

  lemma {:induction false} WhereKeeps(es: seq<Entry>, keep: Entry -> bool)
    ensures forall x :: x in Where(es, keep) ==> x in es && keep(x)
  {
    if es != [] {
      WhereKeeps(es[..|es| - 1], keep);
      assert forall x :: x in es[..|es| - 1] ==> x in es;
    }
  }

  lemma {:induction false} ProjectAt(es: seq<Entry>, f: Entry -> int, k: nat)
    requires k < |es|
    ensures Project(es, f)[k] == f(es[k])
  {
    if k < |es| - 1 {
      ProjectAt(es[..|es| - 1], f, k);
    }
  }

  predicate IsIndexPage(key: string)
  {
    key == "/" || key == "/index.html" || key == "/editor.html"
  }

  /** The view counts of the index pages among `pages`. */
  function IndexHits(pages: seq<(string, int)>): seq<int>
  {
    if pages == [] then []
    else
      var last := pages[|pages| - 1];
      IndexHits(pages[..|pages| - 1]) + (if IsIndexPage(last.0) then [last.1] else [])
  }

  predicate IsRun(e: Entry) { e.url == "/rest/run" }
  predicate IsPageView(e: Entry) { e.kind == "pages" }
  function RunTime(e: Entry): int { e.time }
  function RunSize(e: Entry): int { e.size }
  function PageCount(e: Entry): int { e.pagesCount }
  function IndexViews(e: Entry): int { Total(IndexHits(e.pages)) }

  /** The figures of one day. */
  datatype DayFigures = DayFigures(
    userCnt: nat, pagesCnt: int, pageIdxCnt: int, reqCount: nat,
    avgWTm: int, maxWTm: int, avgSTm: int, maxSTm: int, maxSSz: int)

  /** The figures `digestDaily` computes for the entries of one day. The
      object literal names `avgSTm` twice; the second one, the average
      size of the runs, is the one that stays. */
  function FiguresOf(dentries: seq<Entry>): DayFigures
  {
    var users := UserStats(dentries);
    var runs := Where(dentries, IsRun);
    var pages := Where(dentries, IsPageView);
    DayFigures(
      |users|,
      Total(Project(pages, PageCount)),
      Total(Project(pages, IndexViews)),
      |dentries|,
      CeilDiv(Average(WorkTimes(users)), FirstMinute),
      CeilDiv(Largest(WorkTimes(users)), FirstMinute),
      Average(Project(runs, RunSize)),
      Largest(Project(runs, RunTime)),
      Largest(Project(runs, RunSize)))
  }

  /** The `daily.map` callback of `digestDaily` for one day; the user ids
      are returned beside the figures until the cumulative count is taken. */
  method Summarize(dentries: seq<Entry>) returns (users: seq<string>, f: DayFigures)
    ensures users == Ids(UserStats(dentries))
    ensures f == FiguresOf(dentries)
  {
    var stats := DigestUsers(dentries);
    var runEntries := Where(dentries, IsRun);
    var pagesEntries := Where(dentries, IsPageView);
    users := Ids(stats);
    var pagesCnt := Sum(Some(Project(pagesEntries, PageCount)));
    var pageIdxCnt := Sum(Some(Project(pagesEntries, IndexViews)));
    var avgW := Avg(Some(WorkTimes(stats)));
    var maxW := Max(WorkTimes(stats));
    var maxSTm := Max(Project(runEntries, RunTime));
    var avgSTm := Avg(Some(Project(runEntries, RunSize)));
    var maxSSz := Max(Project(runEntries, RunSize));
    f := DayFigures(|stats|, pagesCnt, pageIdxCnt, |dentries|, CeilDiv(avgW, FirstMinute),
                    CeilDiv(maxW, FirstMinute), avgSTm, maxSTm, maxSSz);
  }

  /** A run of 5 ms with 7 bytes: the reported average time exceeds the
      reported maximum time. */
  lemma AverageTimeOverwritten()
    ensures var e := Entry("2014-01-01T10:00:00Z", 1, None, "/rest/run", "user", 5, 7, None, 0, [], "", None, "", None);
      FiguresOf([e]).avgSTm == 7 && FiguresOf([e]).maxSTm == 5
  {
    var e := Entry("2014-01-01T10:00:00Z", 1, None, "/rest/run", "user", 5, 7, None, 0, [], "", None, "", None);
    var es := [e];
    assert es[..0] == [];
    assert Where(es, IsRun) == es;
    assert Project(es, RunSize) == [7];
    assert Project(es, RunTime) == [5];
    assert [7][..0] == [] && [5][..0] == [];
    assert NonZeros([7]) == 1 && Total([7]) == 7;
  }

  /** The run figures as evidently intended: the average time beside the
      maximum time, and the average size under a key of its own. */
  datatype RunFigures = RunFigures(avgSTm: int, maxSTm: int, avgSSz: int, maxSSz: int)

  function IntendedRunFigures(dentries: seq<Entry>): RunFigures
  {
    var runs := Where(dentries, IsRun);
    RunFigures(
      Average(Project(runs, RunTime)), Largest(Project(runs, RunTime)),
      Average(Project(runs, RunSize)), Largest(Project(runs, RunSize)))
  }

  /** With non-negative times and sizes each average lies between zero
      and the matching maximum. */
  lemma IntendedAveragesBounded(dentries: seq<Entry>)
    requires forall i :: 0 <= i < |dentries| ==> dentries[i].time >= 0 && dentries[i].size >= 0
    ensures 0 <= IntendedRunFigures(dentries).avgSTm <= IntendedRunFigures(dentries).maxSTm
    ensures 0 <= IntendedRunFigures(dentries).avgSSz <= IntendedRunFigures(dentries).maxSSz
  {
    var runs := Where(dentries, IsRun);
    WhereKeeps(dentries, IsRun);
    forall k | 0 <= k < |runs|
      ensures Project(runs, RunTime)[k] >= 0 && Project(runs, RunSize)[k] >= 0
    {
      ProjectAt(runs, RunTime, k);
      ProjectAt(runs, RunSize, k);
      assert runs[k] in dentries;
    }
    AverageAtMostLargest(Project(runs, RunTime));
    AverageAtMostLargest(Project(runs, RunSize));
  }

  /** The rounded average of non-negative numbers is at most their largest. */
  lemma AverageAtMostLargest(xs: seq<int>)
    requires forall i :: 0 <= i < |xs| ==> xs[i] >= 0
    ensures 0 <= Average(xs) <= Largest(xs)
  {
    var n := NonZeros(xs);
    if n > 0 {
      TotalAtMost(xs, Largest(xs));
      AverageNearest(xs);
      RoundedWithin(n, Average(xs), Total(xs), Largest(xs));
    }
  }

  /** A rounded quotient of a total in `[0, n * m]` by `n` lies in `[0, m]`. */
  lemma RoundedWithin(n: int, r: int, t: int, m: int)
    requires n > 0 && n * (2 * r - 1) <= 2 * t < n * (2 * r + 1)
    requires 0 <= t <= n * m
    ensures 0 <= r <= m
  {
    Double(n, m);
    ScaleCancels(n, 2 * r - 1, 2 * m);
    ScalePositive(n, 2 * r + 1);
  }

  lemma Double(n: int, m: int)
    ensures n * (2 * m) == 2 * (n * m)
  {
  }

  lemma ScaleCancels(n: int, a: int, b: int)
    requires n > 0 && n * a <= n * b
    ensures a <= b
  {
  }

  lemma ScalePositive(n: int, a: int)
    requires n > 0 && 0 < n * a
    ensures a > 0
  {
  }

  /** A total of numbers in `[0, m]` is at most `m` for each non-zero one. */
  lemma {:induction false} TotalAtMost(xs: seq<int>, m: int)
    requires forall i :: 0 <= i < |xs| ==> 0 <= xs[i] <= m
    ensures 0 <= Total(xs) <= NonZeros(xs) * m
  {
    if xs != [] {
      TotalAtMost(xs[..|xs| - 1], m);
    }
  }

  // ---------------------------------------------------------------------
  // Cumulative user count

  /** One day of the result, after `delete entry.users`. */
  datatype DayRecord = DayRecord(date: string, figures: DayFigures, cumUserCnt: nat)

  /** The users of the first `n` days. */
  function Known(lists: seq<seq<string>>, n: nat): set<string>
    requires n <= |lists|
  {
    if n == 0 then {} else Known(lists, n - 1) + Members(lists[n - 1])
  }

  /** The records of the first `n` days, each with the number of users
      seen on it or before it. */
  function Records(days: seq<string>, figures: seq<DayFigures>, lists: seq<seq<string>>, n: nat): (r: seq<DayRecord>)
    requires n <= |days| && n <= |figures| && n <= |lists|
    ensures |r| == n
  {
    if n == 0 then []
    else Records(days, figures, lists, n - 1) + [DayRecord(days[n - 1], figures[n - 1], |Known(lists, n)|)]
  }

  /** The user ids of day `d`. */
  function DayUsersOf(entries: seq<Entry>, d: string): seq<string>
  {
    Ids(UserStats(DayEntries(entries, |entries|, d)))
  }

  /** The figures of day `d`. */
  function DayFiguresOf(entries: seq<Entry>, d: string): DayFigures
  {
    FiguresOf(DayEntries(entries, |entries|, d))
  }

  function UsersOn(entries: seq<Entry>): string -> seq<string>
  {
    d => DayUsersOf(entries, d)
  }

  function FiguresOn(entries: seq<Entry>): string -> DayFigures
  {
    d => DayFiguresOf(entries, d)
  }

  /** What `digestDaily(entries)` returns: one record per day, in the order
      the days first appear. */
  function Daily(entries: seq<Entry>): seq<DayRecord>
  {
    var days := Nubbed(DayKeys(entries, |entries|));
    Records(days, MapTo(days, FiguresOn(entries), |days|), MapTo(days, UsersOn(entries), |days|), |days|)
  }

  /** The inner `entry.users.forEach` loop: every id not yet known is
      recorded and counted. */
  method CountKnown(known: map<string, bool>, count: nat, ids: seq<string>)
    returns (known': map<string, bool>, count': nat)
    requires Counted(known, known.Keys, count)
    ensures Counted(known', known.Keys + Members(ids), count')
  {
    known', count' := known, count;
    for j := 0 to |ids|
      invariant Counted(known', known.Keys + Members(ids[..j]), count')
    {
      var id := ids[j];
      CountStep(known', known.Keys, ids, j, count');
      if !(id in known' && known'[id]) {
        known' := known'[id := true];
        count' := count' + 1;
      }
    }
    assert ids[..|ids|] == ids;
  }

  /** `known` marks exactly the ids of `ids` as known, and `count` counts them. */
  ghost predicate Counted(known: map<string, bool>, ids: set<string>, count: nat)
  {
    known.Keys == ids && count == |ids| && forall k :: k in known ==> known[k]
  }

  lemma CountStep(known: map<string, bool>, base: set<string>, ids: seq<string>, j: nat, count: nat)
    requires j < |ids| && Counted(known, base + Members(ids[..j]), count)
    ensures !(ids[j] in known && known[ids[j]]) ==>
              Counted(known[ids[j] := true], base + Members(ids[..j + 1]), count + 1)
    ensures ids[j] in known && known[ids[j]] ==> Counted(known, base + Members(ids[..j + 1]), count)
  {
    MembersSnoc(ids, j);
    UnionAssoc(base, Members(ids[..j]), ids[j]);
    if ids[j] in known {
      UnionHas(known.Keys, ids[j]);
    } else {
      KeysAdd(known, ids[j]);
    }
  }

  lemma MembersSnoc(ids: seq<string>, j: nat)
    requires j < |ids|
    ensures Members(ids[..j + 1]) == Members(ids[..j]) + {ids[j]}
  {
    assert ids[..j + 1][..j] == ids[..j];
  }

  lemma UnionAssoc(a: set<string>, b: set<string>, x: string)
    ensures (a + b) + {x} == a + (b + {x})
  {
  }

  lemma UnionHas(a: set<string>, x: string)
    requires x in a
    ensures a + {x} == a
  {
  }

  lemma KeysAdd(m: map<string, bool>, id: string)
    requires id !in m
    ensures m[id := true].Keys == m.Keys + {id}
    ensures |m[id := true].Keys| == |m.Keys| + 1
  {
  }

  /** The `daily.map` pass of `digestDaily`: the user ids and the figures
      of each day. */
  method SummarizeDays(entries: seq<Entry>, keys: seq<string>, groups: map<string, seq<Entry>>)
    returns (lists: seq<seq<string>>, figures: seq<DayFigures>)
    requires forall d :: d in keys ==> d in groups && groups[d] == DayEntries(entries, |entries|, d)
    ensures lists == MapTo(keys, UsersOn(entries), |keys|)
    ensures figures == MapTo(keys, FiguresOn(entries), |keys|)
  {
    lists := [];
    figures := [];
    for j := 0 to |keys|
      invariant lists == MapTo(keys, UsersOn(entries), j)
      invariant figures == MapTo(keys, FiguresOn(entries), j)
    {
      var dentries := groups[keys[j]];
      assert dentries == DayEntries(entries, |entries|, keys[j]);
      lists, figures := SummarizeNext(entries, keys, j, dentries, lists, figures);
    }
  }

  /** One day of the `daily.map` pass. */
  method SummarizeNext(entries: seq<Entry>, keys: seq<string>, j: nat, dentries: seq<Entry>,
                       lists: seq<seq<string>>, figures: seq<DayFigures>)
    returns (lists': seq<seq<string>>, figures': seq<DayFigures>)
    requires j < |keys| && dentries == DayEntries(entries, |entries|, keys[j])
    requires lists == MapTo(keys, UsersOn(entries), j) && figures == MapTo(keys, FiguresOn(entries), j)
    ensures lists' == MapTo(keys, UsersOn(entries), j + 1)
    ensures figures' == MapTo(keys, FiguresOn(entries), j + 1)
  {
    var users, f := Summarize(dentries);
    SummaryStep(entries, keys, j, lists, figures, users, f);
    lists' := lists + [users];
    figures' := figures + [f];
  }

  lemma SummaryStep(entries: seq<Entry>, keys: seq<string>, j: nat, lists: seq<seq<string>>,
                    figures: seq<DayFigures>, users: seq<string>, f: DayFigures)
    requires j < |keys|
    requires lists == MapTo(keys, UsersOn(entries), j) && figures == MapTo(keys, FiguresOn(entries), j)
    requires users == DayUsersOf(entries, keys[j]) && f == DayFiguresOf(entries, keys[j])
    ensures lists + [users] == MapTo(keys, UsersOn(entries), j + 1)
    ensures figures + [f] == MapTo(keys, FiguresOn(entries), j + 1)
  {
  }

  /** The `daily.forEach` pass of `digestDaily`: the running count of the
      users known so far replaces each day's user list. */
  method Cumulate(keys: seq<string>, figures: seq<DayFigures>, lists: seq<seq<string>>)
    returns (daily: seq<DayRecord>)
    requires |figures| == |keys| && |lists| == |keys|
    ensures daily == Records(keys, figures, lists, |keys|)
  {
    var knownUsers: map<string, bool> := map[];
    var knownCount := 0;
    daily := [];
    for j := 0 to |keys|
      invariant daily == Records(keys, figures, lists, j)
      invariant Counted(knownUsers, Known(lists, j), knownCount)
    {
      knownUsers, knownCount := CountKnown(knownUsers, knownCount, lists[j]);
      daily := daily + [DayRecord(keys[j], figures[j], knownCount)];
    }
  }

  /** `digestDaily(entries)`. */
  method DigestDaily(entries: seq<Entry>) returns (daily: seq<DayRecord>)
    ensures daily == Daily(entries)
  {
    var keys, groups := GroupByDay(entries);
    NubbedProps(DayKeys(entries, |entries|));
    var lists, figures := SummarizeDays(entries, keys, groups);
    daily := Cumulate(keys, figures, lists);
  }

  // ---------------------------------------------------------------------
  // Properties of the daily digest

  lemma {:induction false} KnownGrows(lists: seq<seq<string>>, i: nat, j: nat)
    requires i <= j <= |lists|
    ensures Known(lists, i) <= Known(lists, j)
    decreases j - i
  {
    if i < j {
      KnownGrows(lists, i, j - 1);
    }
  }

  lemma {:induction false} RecordsAt(days: seq<string>, figures: seq<DayFigures>, lists: seq<seq<string>>, n: nat, k: nat)
    requires k < n <= |days| && n <= |figures| && n <= |lists|
    ensures Records(days, figures, lists, n)[k] == DayRecord(days[k], figures[k], |Known(lists, k + 1)|)
  {
    if k < n - 1 {
      RecordsAt(days, figures, lists, n - 1, k);
    }
  }

  /** The days are distinct, in order of first appearance, each with the
      figures of its own entries, and every day with an entry has a record. */
  lemma DailyDays(entries: seq<Entry>)
    ensures |Daily(entries)| == |Nubbed(DayKeys(entries, |entries|))|
    ensures forall k :: 0 <= k < |Daily(entries)| ==>
              Daily(entries)[k].date == Nubbed(DayKeys(entries, |entries|))[k] &&
              Daily(entries)[k].figures == FiguresOf(DayEntries(entries, |entries|, Daily(entries)[k].date))
    ensures forall i, j :: 0 <= i < j < |Daily(entries)| ==> Daily(entries)[i].date != Daily(entries)[j].date
    ensures forall i :: 0 <= i < |entries| ==>
              exists k :: 0 <= k < |Daily(entries)| && Daily(entries)[k].date == DayKey(entries[i].date)
  {
    var days := Nubbed(DayKeys(entries, |entries|));
    var figures := MapTo(days, FiguresOn(entries), |days|);
    var lists := MapTo(days, UsersOn(entries), |days|);
    var r := Daily(entries);
    NubbedProps(DayKeys(entries, |entries|));
    forall k | 0 <= k < |days|
      ensures r[k].date == days[k] && r[k].figures == FiguresOf(DayEntries(entries, |entries|, days[k]))
    {
      RecordsAt(days, figures, lists, |days|, k);
      MapToAt(days, FiguresOn(entries), |days|, k);
    }
    forall i | 0 <= i < |entries|
      ensures exists k :: 0 <= k < |r| && r[k].date == DayKey(entries[i].date)
    {
      DayKeysAt(entries, |entries|, i);
      assert DayKey(entries[i].date) in days;
    }
  }

  /** Over any records: the running count never decreases, and it is at
      least the number of distinct users of the day itself. */
  lemma RecordsCumulative(days: seq<string>, figures: seq<DayFigures>, lists: seq<seq<string>>)
    requires |figures| == |days| && |lists| == |days|
    requires forall k :: 0 <= k < |days| ==> figures[k].userCnt == |Members(lists[k])|
    ensures var r := Records(days, figures, lists, |days|);
      forall i, j :: 0 <= i <= j < |r| ==> r[i].cumUserCnt <= r[j].cumUserCnt
    ensures var r := Records(days, figures, lists, |days|);
      forall k :: 0 <= k < |r| ==> r[k].figures.userCnt <= r[k].cumUserCnt
  {
    var r := Records(days, figures, lists, |days|);
    forall i, j | 0 <= i <= j < |r| ensures r[i].cumUserCnt <= r[j].cumUserCnt {
      CountGrows(days, figures, lists, i, j);
    }
    forall k | 0 <= k < |r| ensures r[k].figures.userCnt <= r[k].cumUserCnt {
      CountCoversDay(days, figures, lists, k);
    }
  }

  lemma CountGrows(days: seq<string>, figures: seq<DayFigures>, lists: seq<seq<string>>, i: nat, j: nat)
    requires |figures| == |days| && |lists| == |days| && i <= j < |days|
    ensures Records(days, figures, lists, |days|)[i].cumUserCnt <= Records(days, figures, lists, |days|)[j].cumUserCnt
  {
    RecordsAt(days, figures, lists, |days|, i);
    RecordsAt(days, figures, lists, |days|, j);
    KnownGrows(lists, i + 1, j + 1);
    SubsetCard(Known(lists, i + 1), Known(lists, j + 1));
  }

  lemma CountCoversDay(days: seq<string>, figures: seq<DayFigures>, lists: seq<seq<string>>, k: nat)
    requires |figures| == |days| && |lists| == |days| && k < |days|
    requires figures[k].userCnt == |Members(lists[k])|
    ensures Records(days, figures, lists, |days|)[k].figures.userCnt <= Records(days, figures, lists, |days|)[k].cumUserCnt
  {
    RecordsAt(days, figures, lists, |days|, k);
    assert Known(lists, k + 1) == Known(lists, k) + Members(lists[k]);
    SubsetCard(Members(lists[k]), Known(lists, k + 1));
  }

  /** The cumulative user count of `digestDaily` never decreases from one
      day to a later one, and is at least the number of users of the day
      itself. */
  lemma CumulativeCount(entries: seq<Entry>)
    ensures var r := Daily(entries);
      forall i, j :: 0 <= i <= j < |r| ==> r[i].cumUserCnt <= r[j].cumUserCnt
    ensures var r := Daily(entries);
      forall k :: 0 <= k < |r| ==> r[k].figures.userCnt <= r[k].cumUserCnt
  {
    var days := Nubbed(DayKeys(entries, |entries|));
    var figures := MapTo(days, FiguresOn(entries), |days|);
    var lists := MapTo(days, UsersOn(entries), |days|);
    forall k | 0 <= k < |days| ensures figures[k].userCnt == |Members(lists[k])| {
      MapToAt(days, UsersOn(entries), |days|, k);
      MapToAt(days, FiguresOn(entries), |days|, k);
      DayUserCount(entries, days[k], lists[k], figures[k]);
    }
    RecordsCumulative(days, figures, lists);
    assert Daily(entries) == Records(days, figures, lists, |days|);
  }

  /** A day's user count is the number of distinct ids on its user list. */
  lemma DayUserCount(entries: seq<Entry>, day: string, users: seq<string>, f: DayFigures)
    requires users == DayUsersOf(entries, day) && f == DayFiguresOf(entries, day)
    ensures f.userCnt == |Members(users)|
  {
    UserStatsProps(DayEntries(entries, |entries|, day));
    DistinctCard(users);
  }
}
