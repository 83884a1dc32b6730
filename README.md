# Madoko web client and statistics core, modelled in Dafny

Madoko is a Markdown-based authoring system whose web editor runs the Madoko
compiler inside a web worker and shows the result in a preview frame. This
project models the pieces of that web layer that compute or keep state.

- **The browser helper library** (`web/client/scripts/util.js`):
  - HTML and string escaping, `replicate` and `lpad`, `contains`,
    `startsWith` and `endsWith`, and `isRelative`.
  - The class-name helpers on a DOM element.
  - The MIME table and the extension tests.
  - The base-64 decoder.
  - The URL parameter codec.
  - The `ContWorker` message channel to the worker, with its pending
    table, its start-up queue, time-outs, restarts and the heartbeat
    watchdog.
  - The `AsyncRunner` scheduler, with its stale flag, one round in flight
    at a time and the adaptive refresh period.
- **The worker script** (`web/client/madoko-worker.js`):
  - `nub`, `fileList` and `fileWriteList`.
  - The heartbeat.
  - The message handler, with its file table and its fault paths.
- **The statistics digests of the server** (`web/stats.js`):
  - `sum`, `avg` and `max`.
  - `digestUsers` and `digestDaily`.
  - `digestErrors` and `digestDomains`.
  - The anonymising rewrites.
- **The source-position code of the preview page**
  (`web/client/preview/preview.js`):
  - `findLocation`, `findNextElement` and `bodyFindElemAtLine`.
  - The `loadedScripts` table of scripts inserted and loaded, and the
    test that fires the `load` event once all of them have loaded.

The Dafny files follow that structure, with one module per concern:

| Module | File | What it holds |
|---|---|---|
| `Js` | `js.dfy` | The JavaScript built-ins the core relies on: `indexOf`, `split`, `join`, `\s`, `parseInt`. |
| `Seqs` | `seqs.dfy` | `Nubbed`, which is first occurrences in order: the key order of the `Map` class and the result of `nub`. Also `Reversed`, `Take` and `MapTo`. |
| `TextUtil` | `text_util.dfy` | The string helpers of `util.js`. |
| `ClassNames` | `class_names.dfy` | `className` editing on an `Element` class. |
| `Mime` | `mime.dfy` | The MIME table and the extension lists. |
| `Base64` | `base64.dfy` | `decodeBase64Code` and `decodeBase64` over an array. An RFC 4648 encoder serves as the reference partner. |
| `UrlParams` | `url_params.dfy` | `urlParamsDecode` and `urlParamsEncode`. |
| `WorkerChannel` | `cont_worker.dfy` | `ContWorker` as a class. |
| `UpdateScheduler` | `async_runner.dfy` | `AsyncRunner` as a class. |
| `MadokoWorker` | `madoko_worker.dfy` | The worker script, with the worker as a class. |
| `StatNumbers` | `stat_numbers.dfy` | `sum`, `avg`, `max`, and the roundings they are combined with. |
| `LogAnon` | `log_anon.dfy` | `anonIP`, `anonURL`, `anonDomain`, and the domain key of `digestDomains`. |
| `LogDigest` | `log_digest.dfy` | `digestUsers` and `digestDaily`. |
| `LogErrors` | `log_errors.dfy` | `anon`, `digestErrors` and `digestDomains`, with a generic model of grouping through the `Map` class. |
| `Preview` | `preview.dfy` | The preview functions, over a DOM given as a sequence of nodes. |

The operations that change state are classes or loops:

- The channel, the scheduler, the worker, the script tracker and the class
  names are classes whose methods modify their fields.
- The loops of the source are methods with loop invariants. Each is proved
  equal to a specification function, and the properties are proved about
  that function.

Outside influences are parameters or callbacks:

- I/O, timers, clocks and the worker's runtime calls become parameters.
- A fault parameter names the runtime call that throws: `clearStorage`,
  `unlinkFile`, `writeTextFile` or `markdown`.
- `encodeURIComponent`/`decodeURIComponent`, `Stdpath.extname`/`dirname`
  and the file reader are function parameters.

## Model

| member | source | states |
|---|---|---|
| Js.IndexOf | web/client/scripts/util.js:280-288 | `indexOf` is -1 exactly when there is no occurrence; otherwise it is the first occurrence. |
| Js.Split | web/client/scripts/util.js:895 | `split` gives at least one piece, no piece holds the separator, and joining the pieces restores the input. |
| Js.SplitJoin | web/client/scripts/util.js:895 | Splitting undoes joining when no piece holds the separator. |
| Js.TrimStartRemovesSpaces | web/client/scripts/util.js:294 | `TrimStart` removes only white space. It is the rest of a white-space run that `SplitWs` consumes, and the leading white space `ParseInt` skips. |
| Js.SplitWsPieces | web/client/scripts/util.js:294 | No piece of `split(/\s+/)` holds white space. |
| TextUtil.HtmlEscape | web/client/scripts/util.js:35-52 | The output holds no `\r`, space or quote; without a newline in the input, it holds no special character at all. |
| TextUtil.HtmlEscapeRoundTrip | web/client/scripts/util.js:35-52 | Reading the entities back restores any text without `\r`, the one character the table drops. |
| TextUtil.StringEscape | web/client/scripts/util.js:54-60 | The output has no line breaks and is no shorter than the input. |
| TextUtil.StringEscapeRoundTrip | web/client/scripts/util.js:54-60 | Reading the backslash escapes back restores the input. |
| TextUtil.Replicate | web/client/scripts/util.js:262-268 | The loop returns `s` repeated `n` times, and nothing for `n <= 0`. |
| TextUtil.RepeatLength | web/client/scripts/util.js:262-268 | The repetition has length `n * |s|`, or 0 for `n <= 0`. |
| TextUtil.LpadProps | web/client/scripts/util.js:270-276 | With a one-character fill, the result has length `max(n, |s|)`, ends with `s` and is padded with the fill, `0` by default. |
| TextUtil.ContainsLoop | web/client/scripts/util.js:278-286 | The array loop finds `s` exactly when some element equals it; an empty `s` is always found. |
| TextUtil.ContainsSub | web/client/scripts/util.js:278-290 | The string branch: true exactly when `xs` is non-empty and `s` is empty or occurs in it. |
| TextUtil.StartsWith | web/client/scripts/util.js:326-330 | True exactly when `pre` is a prefix of `s`. |
| TextUtil.EndsWith | web/client/scripts/util.js:332-337 | True exactly when the first occurrence of `post` is at the end; a true result implies a suffix. |
| TextUtil.EndsWithFirstOccurrenceOnly | web/client/scripts/util.js:332-337 | A suffix that also occurs earlier is not recognised (`"abab"`, `"ab"`). |
| TextUtil.EndsWithUniqueSuffix | web/client/scripts/util.js:332-337 | A suffix occurring nowhere else is recognised. |
| TextUtil.IsRelativeIff | web/client/scripts/util.js:339-342 | The pattern accepts exactly the well-formed names that start with neither `.` nor `/`. |
| TextUtil.IsRelativeSafe | web/client/scripts/util.js:339-342 | A relative name has no `:` or `\`, starts and ends with neither `.` nor `/`, and never puts `.` or `/` after another. |
| ClassNames.Without | web/client/scripts/util.js:311 | The filter keeps exactly the other names; the length is kept exactly when the name is absent. |
| ClassNames.Element.constructor | web/client/scripts/util.js:292-324 | An element with the given `className`, which may be missing. |
| ClassNames.RemoveClassName | web/client/scripts/util.js:307-315 | Rewrites `className` to the remaining names joined by spaces, only when one was dropped; a missing class name is untouched. |
| ClassNames.AddClassName | web/client/scripts/util.js:317-324 | Appends `" " + cname` when it is absent; otherwise, or with no class name, leaves the element alone. |
| ClassNames.ToggleClassName | web/client/scripts/util.js:298-305 | Removes when present, adds otherwise; with a space-free name the presence flips. |
| ClassNames.AddMakesPresent | web/client/scripts/util.js:317-324 | Adding a space-free name makes `hasClassName` true. |
| ClassNames.RemoveMakesAbsent | web/client/scripts/util.js:307-315 | Removing a non-empty name makes `hasClassName` false. |
| ClassNames.SplitJoinPieces | web/client/scripts/util.js:313 | Splitting space-joined names yields only those names and the empty piece. |
| Mime.MimeFromExt | web/client/scripts/util.js:351-389 | The result is a table value or `text/plain`. |
| Mime.MimeKinds | web/client/scripts/util.js:351-381 | Sorts the table keys into image, text and application types. |
| Mime.HasImageExtIff | web/client/scripts/util.js:393-395 | The image extensions are exactly png, jpg, jpeg, gif, svg and eps. |
| Mime.HasTextExtIff | web/client/scripts/util.js:397-399 | Every extension is a text extension except the image ones, pdf and json. |
| Mime.TextMimeOfExt | web/client/scripts/util.js:416-418 | The type of an extension is a text type exactly for text extensions and json. |
| Mime.EmbedListAccepted | web/client/scripts/util.js:401-406 | Every listed extension is embedded. |
| Mime.EmbedExtsBySubstring | web/client/scripts/util.js:401-406 | The test is a substring test: `.j` and `.c` pass, `.tex` and `.png` do not. |
| Mime.EmbedExtsMiss | web/client/scripts/util.js:401-406 | `.tex` and `.png` are not embedded. |
| Mime.EmbedExtsLack | web/client/scripts/util.js:401-406 | An extension with a character that no listed extension has is not embedded. |
| Mime.DropExtsMissThreeLetter | web/client/scripts/util.js:409-414 | As written, no dotted extension of three letters except `.css` is a drop file. |
| Mime.DropExtsMissMadoko | web/client/scripts/util.js:409-414 | As written, `.mdk` and `.png` are not drop files. |
| Mime.DropExtsDotted | web/client/scripts/util.js:409-414 | The two dotted entries `.js` and `.css` match. |
| Mime.DroppedListAccepted | web/client/scripts/util.js:409-414 | With the dotted list, every listed extension, `.mdk` among them, is a drop file. |
| Mime.DroppedListSelective | web/client/scripts/util.js:409-414 | With the dotted list, an unlisted extension such as `.doc` is still no drop file. |
| Mime.GeneratedAccepted | web/client/scripts/util.js:420-425 | Listed extensions are generated anywhere, any file directly in `out` (with an extension) is generated, and a file with no extension never is. |
| Mime.GeneratedTex | web/client/scripts/util.js:420-425 | A `.tex` file is generated exactly when it ends in `.final.tex` or lies in `out`. |
| Base64.DecodeCode | web/client/scripts/util.js:442-451 | Every character code maps to a value in [0, 64). |
| Base64.DecodeCodeOfAlphabet | web/client/scripts/util.js:442-451 | `decodeBase64Code` inverts the alphabet of section 4 of RFC 4648. |
| Base64.AlphabetOfDecodeCode | web/client/scripts/util.js:442-451 | On alphabet characters, the table inverts `decodeBase64Code`. |
| Base64.KeptAlphabet | web/client/scripts/util.js:455 | The filtered text holds only alphabet characters. |
| Base64.KeptAll | web/client/scripts/util.js:455 | A text of alphabet characters is kept whole. |
| Base64.DecodeBase64 | web/client/scripts/util.js:453-474 | The array returned is exactly the decoding of the kept characters. |
| Base64.DecodeGroups | web/client/scripts/util.js:457-473 | The outer loop writes the decoding of its input, group by group. |
| Base64.WriteGroup | web/client/scripts/util.js:465-469 | The inner loop writes the group's bytes most significant first, at most three and never past `destlen`. |
| Base64.DecodedLength | web/client/scripts/util.js:457-458 | The output length is `(len >> 2) * 3 + (len & 3)`. |
| Base64.GroupBytesOrder | web/client/scripts/util.js:465-468 | Byte `j` of a group is `(acc >>> ((2 - j) * 8)) & 255`. |
| Base64.DecodeEncode | web/client/scripts/util.js:453-474 | Decoding undoes base-64 encoding; a partial final group comes back with one extra zero byte. |
| Base64.EncodeDecoded | web/client/scripts/util.js:453-474 | Whole groups of alphabet characters re-encode to themselves. |
| UrlParams.Query | web/client/scripts/util.js:893 | Drops one leading `#` or `?` and nothing else. |
| UrlParams.UrlParamsDecode | web/client/scripts/util.js:891-902 | For an empty hash the result is the empty dictionary; otherwise it is the parts stored in order. |
| UrlParams.StoreParts | web/client/scripts/util.js:895-900 | The `forEach` stores each part's decoded key with its decoded value. |
| UrlParams.DecodedKeys | web/client/scripts/util.js:891-902 | A key is present exactly when some part has it. |
| UrlParams.DecodedLastWins | web/client/scripts/util.js:895-900 | A repeated key takes the value of its last part. |
| UrlParams.DecodedLoneHash | web/client/scripts/util.js:891-902 | A lone `#` decodes to one entry with the empty key. |
| UrlParams.UrlParamsEncode | web/client/scripts/util.js:904-911 | A missing object or a string passes through; otherwise the `key=value` pairs are joined with `&`. |
| UrlParams.PairsLackAmpersand | web/client/scripts/util.js:907-909 | No encoded pair holds an `&`. |
| UrlParams.QueryOfPairs | web/client/scripts/util.js:893-911 | An encoding whose first key has no `#` or `?` loses nothing to the leading-character strip. |
| UrlParams.DecodeEncoded | web/client/scripts/util.js:891-911 | With a codec whose output has no `&`, `=`, `#` or `?`, decoding the encoding gives back the properties, `null` as "". |
| WorkerChannel.ContWorker.constructor | web/client/scripts/util.js:690-708 | Starts with empty tables, id 1, not ready, worker 0, and the heartbeat at the start time. |
| WorkerChannel.ContWorker.PostMessage | web/client/scripts/util.js:742-761 | Not ready: the request is queued. Ready: it gets the next id and a pending entry (with a timer when `timeout > 1`), and is posted to the current worker. Either way a fresh promise is returned. |
| WorkerChannel.ContWorker.Dispatch | web/client/scripts/util.js:748-759 | The ready branch: the next id, the pending entry and the posted message. |
| WorkerChannel.ContWorker.Flush | web/client/scripts/util.js:769-774 | The ready signal replays the whole queue in order, with consecutive ids, each new promise chained to the queued one. |
| WorkerChannel.ContWorker.OnMessage | web/client/scripts/util.js:763-782 | No id: ignored. A heartbeat: records the time. Id 0: ready and replay. Otherwise the pending entry is removed and its promise (and any chained one) resolved; an unknown id is ignored. |
| WorkerChannel.ContWorker.Timeout | web/client/scripts/util.js:753-755 | A time-out resolves the pending promise with a timed-out result and removes the entry. |
| WorkerChannel.ContWorker.Restart | web/client/scripts/util.js:710-731 | Every pending request is timed out once, ids restart at 1, the worker is replaced and it is not ready; the queue stays. |
| WorkerChannel.ContWorker.WatchdogTick | web/client/scripts/util.js:702-707 | Restarts exactly when the previous tick came more than 45 seconds after the last heartbeat; records the tick. |
| WorkerChannel.FlushSentAt | web/client/scripts/util.js:771-773 | Replaying posts the queue entries after the earlier messages, in queue order, with ids counting up. |
| WorkerChannel.FlushPendingAt | web/client/scripts/util.js:771-773 | Replaying gives the `k`-th entry the id `u0 + k` and a fresh promise chained to its queued one. |
| WorkerChannel.ResolveRangeEach | web/client/scripts/util.js:714-720 | A restart resolves each pending promise exactly once, with a timed-out result. |
| WorkerChannel.ResolveRangeUntouched | web/client/scripts/util.js:714-720 | Promises that no pending entry owns are untouched by a restart. |
| WorkerChannel.QueuedRequestsKeepOrder | web/client/scripts/util.js:742-774 | Two requests made before the ready signal are posted in order, with ids 1 and 2. |
| WorkerChannel.AnsweredBeforeRestart | web/client/scripts/util.js:742-782 | A queued request is answered once the worker replies, and the queue entry stays. |
| WorkerChannel.ReplayAfterRestart | web/client/scripts/util.js:710-774 | The never-emptied queue is posted again to the next worker after a restart. |
| UpdateScheduler.AsyncRunner.constructor | web/client/scripts/util.js:789-807 | No rounds; the period is the given one or 1000; one sample; the timer is armed and the adaptive period off. |
| UpdateScheduler.AsyncRunner.Resume | web/client/scripts/util.js:809-817 | Re-arms the timer, keeping the period for a zero rate. |
| UpdateScheduler.AsyncRunner.Pause | web/client/scripts/util.js:819-825 | Disarms the timer and changes nothing else. |
| UpdateScheduler.AsyncRunner.SetDynamicRefreshRate | web/client/scripts/util.js:800 | The client's switch for the adaptive period. |
| UpdateScheduler.AsyncRunner.Run | web/client/scripts/util.js:846-886 | Starts a round exactly when forced or stale and none is in flight; it clears stale and invokes the action with the new round number. |
| UpdateScheduler.AsyncRunner.SetStale | web/client/scripts/util.js:827-831 | Marks stale and starts a round exactly when none is in flight. |
| UpdateScheduler.AsyncRunner.ClearStale | web/client/scripts/util.js:833-836 | Clears the stale flag only. |
| UpdateScheduler.AsyncRunner.Update | web/client/scripts/util.js:838-844 | Polls `isStale` only when not stale, then runs. |
| UpdateScheduler.AsyncRunner.AdaptRate | web/client/scripts/util.js:866-873 | Sets the period to `NextRate` of the running average. The timer is re-armed exactly when a branch calls `resume`; for a positive period it is left alone when the period is kept. |
| UpdateScheduler.ResumesIffChanged | web/client/scripts/util.js:866-873 | For a positive period, the adaptive step calls `resume` exactly when it changes the period. |
| UpdateScheduler.AsyncRunner.Complete | web/client/scripts/util.js:854-884 | Settling the round in flight: a success pushes a sample (at most 10 kept) and may adapt the period; the timer is re-armed exactly when `resume` is called; the round is no longer in flight; a period inside [100, 1000] stays inside. |
| UpdateScheduler.PushSample | web/client/scripts/util.js:856-857 | The window ends with the new sample and holds at most 10 of the latest ones. |
| UpdateScheduler.MeanBounds | web/client/scripts/util.js:858 | The mean of samples within [lo, hi] lies within [lo, hi]. |
| UpdateScheduler.NextRateInBand | web/client/scripts/util.js:866-873 | A period inside [100, 1000] stays inside. |
| UpdateScheduler.NextRateDirection | web/client/scripts/util.js:866-873 | The period grows only for slow rounds below the maximum and shrinks only for fast rounds above the minimum; it changes by at most a factor of 1.5. |
| UpdateScheduler.NextRateTowardsBand | web/client/scripts/util.js:866-873 | A period outside the band moves towards it, never past the other bound. |
| UpdateScheduler.OneRoundAtATime | web/client/scripts/util.js:846-848 | A tick while a round is in flight starts no other; after completion the next one starts. |
| MadokoWorker.Nub | web/client/madoko-worker.js:25-36 | The loop keeps the first occurrence of each element, in order. |
| MadokoWorker.TagInjective | web/client/madoko-worker.js:30-31 | The `"$" + x` keys of `seen` tell elements apart. |
| MadokoWorker.FileListProps | web/client/madoko-worker.js:39-44 | The names are distinct and are exactly the non-empty lines. |
| MadokoWorker.WrittenNamesProps | web/client/madoko-worker.js:50-55 | The names read back are distinct and are exactly the non-empty lines that `util.endsWith(_, "-bib.aux")` accepts, that is, whose first `-bib.aux` is at their end. |
| MadokoWorker.WrittenSuffix | web/client/madoko-worker.js:46-48 | Each name read back ends in `-bib.aux`. |
| MadokoWorker.Reply | web/client/madoko-worker.js:78-137 | At most one immediate reply, carrying the request's id; one exactly for `clear`, for `delete`, or when a call throws. |
| MadokoWorker.RemovedKeys | web/client/madoko-worker.js:91-94 | A removed path is gone from `local`; other entries stay. |
| MadokoWorker.MarkedKeys | web/client/madoko-worker.js:103-106 | A written path is marked true in `local`; other entries stay. |
| MadokoWorker.BeatNumbers | web/client/madoko-worker.js:16-20 | The heartbeats posted are numbered 1, 2, 3, … |
| MadokoWorker.Worker.constructor | web/client/madoko-worker.js:16 | Nothing posted and the counter at zero. |
| MadokoWorker.Worker.Beat | web/client/madoko-worker.js:17-20 | The counter goes up and a heartbeat with the new count is posted. |
| MadokoWorker.Worker.Loaded | web/client/madoko-worker.js:139 | Posts the ready signal `messageId: 0`. |
| MadokoWorker.Worker.OnMessage | web/client/madoko-worker.js:78-137 | The file table and the reply: `clear` empties the table; `delete` removes files; rendering writes files and starts `markdown`; a throw posts the error reply. |
| MadokoWorker.Worker.RemoveFiles | web/client/madoko-worker.js:91-94 | Removes the files up to the one whose `unlinkFile` throws. |
| MadokoWorker.Worker.WriteFiles | web/client/madoko-worker.js:103-106 | Marks the files up to the one whose `writeTextFile` throws. |
| MadokoWorker.Worker.Fail | web/client/madoko-worker.js:130-136 | Posts the exception reply with the request's id. |
| MadokoWorker.Worker.FileWriteList | web/client/madoko-worker.js:50-60 | Reads back each distinct `-bib.aux` file and marks it in `local`. |
| MadokoWorker.Worker.OnRendered | web/client/madoko-worker.js:111-127 | The continuation posts the render reply for its run, marks the files read back and retires the run. |
| MadokoWorker.RenderReply | web/client/madoko-worker.js:113-126 | The render reply carries the request's id. |
| MadokoWorker.WrittenMarked | web/client/madoko-worker.js:57 | After a render each file read back is marked present. |
| StatNumbers.Sum | web/stats.js:73-81 | The total of the elements; 0 for `null` or an empty array. |
| StatNumbers.TotalAppend | web/stats.js:73-81 | The total of a concatenation is the sum of the totals. |
| StatNumbers.Avg | web/stats.js:83-94 | The rounded total over the number of non-zero elements; 0 when none is non-zero. |
| StatNumbers.AverageNearest | web/stats.js:83-94 | The average is the integer nearest the total over the non-zero count. |
| StatNumbers.RoundDivNearest | web/stats.js:93 | `Math.round` of a quotient is the nearest integer, halves up. |
| StatNumbers.CeilDivLeast | web/stats.js:173-174 | `Math.ceil` of a quotient is the least integer at or above it. |
| StatNumbers.Max | web/stats.js:98-104 | The loop returns the largest element, never below 0. |
| StatNumbers.Largest | web/stats.js:98-104 | Bounds every element, is at least 0, and is 0 or one of the elements. |
| LogAnon.AnonIPMasksLastPart | web/stats.js:199-201 | Masks the digits after the last `.` with `***`; an address whose last part is not a number stays; a missing one gives "". |
| LogAnon.DomainKeyDropsLastPart | web/stats.js:264 | The domain key drops the number after the last `.`, when there is one. |
| LogAnon.MatchIsLastDot | web/stats.js:200 | A dot-free tail can only match after the last dot. |
| LogAnon.AnonURLCutsAtFirst | web/stats.js:208-211 | On a one-line URL the result is the prefix before the first `?` or `#`. |
| LogAnon.AnonDomainReadsBack | web/stats.js:220-224 | The looked-up names, none holding a comma, are read back by splitting the report at commas; without a lookup the recorded domain is reported. |
| LogErrors.PathRun | web/stats.js:205 | `[\w\-\_\.\\\/]*` runs to the first character outside the class. |
| LogErrors.MatchAt | web/stats.js:205 | The longest match starting at `i`, or none: the greedy run backtracked to the last `madoko/`. |
| LogErrors.FirstPathMatch | web/stats.js:205 | The leftmost start with a match, and its longest end. |
| LogErrors.AnonCutsLeftmostLongest | web/stats.js:203-206 | Without a match the text stays; otherwise exactly the leftmost-longest match is cut out. |
| LogErrors.ListedErrorsCount | web/stats.js:247-255 | One error record per listed entry. |
| LogErrors.KindsPartition | web/stats.js:231-256 | Every entry falls in exactly one branch of the `forEach`. |
| LogErrors.GroupSummariesAt | web/stats.js:228-238 | The `p`-th summary is that of the entries of the `p`-th key in order of first appearance. |
| LogErrors.GroupedElems | web/stats.js:257 | `elems()` of the built map is the summaries in key order. |
| LogErrors.ScanSummarySnoc | web/stats.js:235-238 | One more scan appends the domain, takes the date and counts one more. |
| LogErrors.Reverse | web/stats.js:213-218 | `reverse` returns nothing for a missing array, else the reversed array. |
| LogErrors.DigestError | web/stats.js:232-255 | One entry of the `forEach`: the tallies and the scan map move on by that entry. |
| LogErrors.DigestErrors | web/stats.js:226-258 | The digest is the newest errors first, capped at 100, the two counters, and the scans reversed. |
| LogErrors.ErrorsProps | web/stats.js:226-258 | At most 100 errors, the latest listed first; the branch counts add up to the number of entries. |
| LogErrors.ScanReportedAt | web/stats.js:233-240 | Scan `p` is the summary of the URL first seen `p`-th from last, with a count of at least 1 and not a stock URL. |
| LogErrors.ScansSummarize | web/stats.js:233-240 | Every scan summarises its URL's entries and skips the stock URLs. |
| LogErrors.ScansDistinct | web/stats.js:235 | One scan record per URL. |
| LogErrors.ScansComplete | web/stats.js:233-240 | Every counted scan's URL has a record. |
| LogErrors.DomainSummarySnoc | web/stats.js:265-270 | One more entry in a group counts one more; the first fixes the address and domain. |
| LogErrors.CountDomain | web/stats.js:262-272 | One entry of the `forEach` moves the domain map on by that entry. |
| LogErrors.DigestDomains | web/stats.js:260-274 | The result is the 25 busiest address ranges. |
| LogErrors.SortByCountProps | web/stats.js:273 | The sort orders by descending count and is a permutation. |
| LogErrors.InsertByCountPerm | web/stats.js:273 | Inserting adds exactly the one record. |
| LogErrors.InsertByCountSorted | web/stats.js:273 | Inserting into an ordered list keeps it ordered. |
| LogErrors.BusiestDomainsProps | web/stats.js:273 | At most 25 records, ordered by count, `min(n, 25)` of them, all among the groups, none less busy than one left out. |
| LogErrors.DomainRecordsProps | web/stats.js:262-272 | One record per address range, counting its entries; every entry with an address has its range listed. |
| LogDigest.WorkTime | web/stats.js:113-126 | The loop's total is the fold of the session step over the entries' stamps. |
| LogDigest.WorkTimeBounds | web/stats.js:113-126 | The working time is at least a minute and at most a minute plus the span of the stamps. |
| LogDigest.BreakEndsCounting | web/stats.js:117-126 | As written, after a gap of ten minutes or more no later entry changes the tally. |
| LogDigest.WorkAfterBreakIgnored | web/stats.js:117-126 | For stamps 1, 600001 and 600002, the source gives one minute; the intended step gives one more millisecond. |
| LogDigest.SessionFoldCountsShortGaps | web/stats.js:117-126 | With the intended step, the time is a minute plus every gap under ten minutes. |
| LogDigest.GroupByUser | web/stats.js:107-112 | Keys in order of first appearance; a user is present exactly when an entry names it; each user holds their entries in order. |
| LogDigest.DigestUsers | web/stats.js:106-134 | The result is the user records. |
| LogDigest.UserStatsProps | web/stats.js:106-134 | Every user with an entry is listed exactly once, in order of first appearance, with at least one request. |
| LogDigest.DayKeyIsDatePart | web/stats.js:148 | On a date the key is the prefix before its first `T`. |
| LogDigest.GroupByDay | web/stats.js:146-159 | Days in order of first appearance; each holds its normalised entries in order. |
| LogDigest.Summarize | web/stats.js:160-181 | The user ids and the figures of one day. |
| LogDigest.AverageTimeOverwritten | web/stats.js:175-177 | As written, `avgSTm` is the average size: a 5 ms, 7-byte run reports 7. |
| LogDigest.IntendedAveragesBounded | web/stats.js:175-178 | As intended, each average lies between 0 and its maximum. |
| LogDigest.AverageAtMostLargest | web/stats.js:83-104 | The rounded average of non-negative numbers is at most their largest. |
| LogDigest.CountKnown | web/stats.js:186-191 | The inner loop marks every id and counts the ones not known before. |
| LogDigest.SummarizeDays | web/stats.js:160-181 | The `daily.map` pass gives each day's user ids and figures. |
| LogDigest.SummarizeNext | web/stats.js:160-181 | One step of `daily.map` adds the next day's user ids and figures. |
| LogDigest.Cumulate | web/stats.js:183-194 | The `daily.forEach` pass gives each day the running count of distinct users. |
| LogDigest.DigestDaily | web/stats.js:145-197 | The result is the daily records. |
| LogDigest.DailyDays | web/stats.js:145-197 | The days are distinct, in order of first appearance, with the figures of their entries; every entry's day is listed. |
| LogDigest.CumulativeCount | web/stats.js:183-194 | The cumulative user count never decreases and is at least that day's user count. |
| LogDigest.RecordsCumulative | web/stats.js:183-194 | Over any day lists, the running count never decreases and covers each day's count. |
| LogDigest.DayUserCount | web/stats.js:161-165 | A day's user count is the number of distinct ids on its list. |
| Preview.MatchDataLineIsRegex | web/client/preview/preview.js:31 | What is returned is a match of `(?:^|;)(?:([^:;]+):)?(\d+)$`, and any match is what is returned. |
| Preview.MatchStartsAfterLastSemicolon | web/client/preview/preview.js:31 | A match can start only right after the last `;`. |
| Preview.LocationOfMatch | web/client/preview/preview.js:30-37 | A data-line gives its captured location unless the line is 0 or nothing matches; a found line is positive. |
| Preview.Visits | web/client/preview/preview.js:28-41 | The walk visits nodes of the DOM, never the root, each one before the last in document order. |
| Preview.FindLocation | web/client/preview/preview.js:27-43 | The loop returns the location of the first visited node that has one. |
| Preview.FirstLocationIsFirst | web/client/preview/preview.js:27-43 | The location found is that of the first visited node with one; every earlier node has none. |
| Preview.FindNextElementIsNearest | web/client/preview/preview.js:151-155 | The result is the next sibling of the nearest ancestor-or-self that has one, else null or the root. |
| Preview.Selected | web/client/preview/preview.js:158-159 | Only nodes with a data-line are selected, containing `;fname:` when a file is named. |
| Preview.SelectedReadsAfterName | web/client/preview/preview.js:170-173 | A selected data-line is read after its first `fname:`. |
| Preview.BodyFindElemAtLine | web/client/preview/preview.js:157-195 | The loop's result is `ElemAt`: the current element at the break and the next element. |
| Preview.ElemAtProps | web/client/preview/preview.js:157-195 | Null exactly when nothing is selected; the line found is at most `line`; the break gives `next`, and otherwise `findNextElement` with `lineCount`. |
| Preview.ElemAtCurrent | web/client/preview/preview.js:162-187 | Current is the last element at or before `line` up to the break; if there is none, the first element is used, with `line`. |
| Preview.ScriptTracker.constructor | web/client/preview/preview.js:337 | No script registered. |
| Preview.ScriptTracker.Insert | web/client/preview/preview.js:366-373 | An inline script (no `src`) is never registered; an unseen `preview` script is registered under `"/" + src` as not loaded, and then not all are loaded. |
| Preview.ScriptTracker.OnLoaded | web/client/preview/preview.js:339-347 | Marks the named script loaded and dispatches exactly when every registered script has loaded. |
| Preview.PendingScriptBlocksLoad | web/client/preview/preview.js:339-347 | An unloaded script blocks the event whatever else loads; once it loads, only the others decide. |
| Seqs.NubbedProps | web/client/madoko-worker.js:25-36 | First occurrences: distinct, with exactly the input's elements. |
| Seqs.ReversedAt | web/stats.js:213-218 | Element `i` of the reversal is element `n - 1 - i`. |
| Seqs.ReversedTwice | web/stats.js:213-218 | Reversing twice restores the array. |

## Left out

- I/O, the network and the DOM outside the preview functions are not modelled:
  - Status messages and the console.
  - Cookies, scrolling and animation, pinning and pop-ups.
  - The request functions of `util.js`.
  - `parseLogs`, `writeStats`, `resolveDomains` and `writeStatsPage` of
    `stats.js`.
- JavaScript promises are not modelled. Their effects are modelled instead:
  a promise is a handle, and each resolution attempt is appended to a log.
- Time is a parameter of the methods that read it. A timer firing is a
  method call.
- `Date.now()` is not modelled. `dateFromISO(entry.date).getTime()` is an
  integer field `stamp` of a log entry.
- The `Map` class of `web/client/scripts/map.js` is not part of this model.
  It is assumed to keep keys in insertion order, which is what `getOrCreate`,
  `map`, `elems` and `forEach` rely on.
- `Array.prototype.sort` in `digestDomains` is assumed stable, as ECMAScript
  2019 and later require; records of equal count keep their group order.
- Sizes, times and counts in the logs are integers, and the scheduler's
  times are reals; floating point is not modelled. `parseInt` is modelled
  without precision loss for long digit strings.
- `mathDoc` in the worker is not modelled; neither are the `mathDoc` and
  `options` fields of its reply.
- The reply's `runOnServer` flag is carried over from the rendering output
  as it is, not computed.
- `time` is an integer, not its string form.
- Markdown rendering is external: its output is a parameter of
  `OnRendered`.
- MadokoWorker.Worker.OnRendered, MadokoWorker.Worker.FileWriteList:
  `madoko.readTextFile` is assumed not to throw. In the source a throw while
  reading the files back leaves no reply, or only the error reply if the
  continuation runs inside the handler's `try`. The names read before the
  throw stay marked in `local`. The model always posts the render reply and
  marks every name.
- `encodeBase64` is not modelled, because it delegates to `window.btoa`. The
  RFC 4648 encoder in `Base64` is only the partner of the decoder.
- `Stdpath.extname` and `dirname` are given as parameters; `firstdirname`,
  `spanLines`, `capitalize`, `clone`, `extend` and `properties` are not
  modelled.
- `_isReady` of `ContWorker` is not modelled: it reads a `self` that is not
  in scope.
- The in-place `entry.size` normalisation of `digestDaily` is modelled as
  producing a new entry value. The mutation of the caller's entries is not
  modelled.
- A missing `error.message` is modelled as "".
- Mime.MimeFromExt, UrlParams.UrlParamsDecode, UrlParams.DecodedKeys:
  JavaScript objects are modelled as plain maps, without the keys they
  inherit from `Object.prototype` (`__proto__`, `constructor`, `toString`,
  `hasOwnProperty`, …).
  - `mimeFromExt("a.constructor")` returns the inherited function, where
    the model returns `text/plain`.
  - `urlParamsDecode("#__proto__=x")` gives an object without that key,
    where the model stores it.
- Strings are sequences of Unicode scalar values, while JavaScript strings
  are sequences of UTF-16 code units. Lengths, positions and cuts (`length`,
  `substr`, `indexOf`, as in `lpad`, `anonURL` and `anon`) agree with the
  source only on text inside the Basic Multilingual Plane.
- A `URIError` from `decodeURIComponent` is not modelled: `dec` is total.
  On a malformed escape such as `#a=%E0%A4%A`, `urlParamsDecode` throws
  instead of returning an object.
- Preview.ScriptTracker.OnLoaded: the model assumes that the load handlers
  pass the key registered at insertion, `"/"` plus the `src` attribute. The
  `onload`/`onreadystatechange` glue is not modelled. In the browser those
  handlers pass `this.src`, the resolved URL. For a relative attribute that
  key differs from the registered one, so the `load` event may never fire.
- The preview model stops short of the browser:
  - The DOM is a sequence of nodes linked by positions.
  - `querySelectorAll` is a filter over that sequence.
  - `dispatchEvent` is the returned flag of `OnLoaded`.
  - `eval` of inline scripts, the rest of `loadContent`, and scroll
    interpolation are not modelled.
- LogErrors.SortByCountProps: states that the result is ordered and a
  permutation. It does not state stability as a lemma, though
  `InsertByCount` is stable by construction.
- UpdateScheduler.AsyncRunner.Complete: the profiling and error `message`
  calls of `run` are not modelled. The spinner is a boolean flag, not a
  callback.

## Findings

| source | as written | input that shows it | evidently intended | confidence | as-written member | corrected member |
|---|---|---|---|---|---|---|
| web/client/scripts/util.js:409-414 | `dropExts` lists `mdk`, `md`, `bib` and so on without their dot, so a dotted extension such as `.mdk` is never found in it | `hasDropExt("doc.mdk")` is false | every listed extension written with its dot, as `.js` and `.css` are | not executed | Mime.DropExtsMissThreeLetter | Mime.DroppedListAccepted |
| web/stats.js:117-126 | after a gap of ten minutes or more `prevTime` is not moved on, so no later entry of that user is ever counted | stamps 1, 600001, 600002 give one minute | each entry becomes the previous one, so a new session counts its own gaps | not executed | LogDigest.WorkAfterBreakIgnored | LogDigest.SessionFoldCountsShortGaps |
| web/stats.js:175-177 | the object literal names `avgSTm` twice, so the average run size overwrites the average run time | one run of 5 ms and 7 bytes reports `avgSTm` 7 | an average time `avgSTm` and an average size `avgSSz` | not executed | LogDigest.AverageTimeOverwritten | LogDigest.IntendedAveragesBounded |
