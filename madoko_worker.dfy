/** The web worker of web/client/madoko-worker.js: it keeps a table of the
    files it holds locally, answers every request with a reply carrying the
    request's `messageId`, and beats a heartbeat. The storage calls into the
    Madoko runtime (`unlinkFile`, `writeTextFile`, `markdown`, ...) are
    outside the model: whether one of them throws is a parameter, and what
    `markdown` produces arrives as the argument of a separate event. */
module MadokoWorker {
  import opened Js
  import opened Seqs
  import opened TextUtil

  /** The `"$" + x` key under which `nub` marks `x` as seen. */
  function Tag(x: string): string
  {
    "$" + x
  }

  lemma TagInjective(x: string, y: string)
    requires Tag(x) == Tag(y)
    ensures x == y
  {
    assert Tag(x)[1..] == x && Tag(y)[1..] == y;
  }

  /** `nub(xs)`: the first occurrence of each element, in order. */
  method Nub(xs: seq<string>) returns (ys: seq<string>)
    ensures ys == Nubbed(xs)
  {
    if |xs| <= 0 {
      return [];
    }
    var seen: map<string, bool> := map[];
    ys := [];
    var i := 0;
    while i < |xs|
      invariant i <= |xs|
      invariant ys == Nubbed(xs[..i])
      invariant forall x :: Tag(x) in seen <==> x in xs[..i]
      invariant forall t :: t in seen ==> seen[t]
    {
      var key := Tag(xs[i]);
      assert xs[..i + 1][..i] == xs[..i];
      if !(key in seen && seen[key]) {
        forall x ensures Tag(x) == key ==> x == xs[i] {
          if Tag(x) == key {
            TagInjective(x, xs[i]);
          }
        }
        seen := seen[key := true];
        ys := ys + [xs[i]];
      }
      assert forall x :: x in xs[..i + 1] <==> x in xs[..i] || x == xs[i];
      i := i + 1;
    }
    assert xs[..i] == xs;
  }

  /** `xs.filter(keep)`. */
  function Filter(xs: seq<string>, keep: string -> bool): (r: seq<string>)
    ensures |r| <= |xs|
  {
    if xs == [] then []
    else if keep(xs[0]) then [xs[0]] + Filter(xs[1..], keep)
    else Filter(xs[1..], keep)
  }

  lemma {:induction false} FilterMembers(xs: seq<string>, keep: string -> bool, x: string)
    ensures x in Filter(xs, keep) <==> x in xs && keep(x)
  {
    if xs != [] {
      FilterMembers(xs[1..], keep, x);
      assert xs == [xs[0]] + xs[1..];
    }
  }

  predicate NonEmpty(s: string) { s != "" }

  /** `fileList(files)`: the distinct non-empty lines of `files`; a missing
      list is the empty string. */
  function FileList(files: string): seq<string>
  {
    if files == "" then [] else Nubbed(Filter(Split(files, '\n'), NonEmpty))
  }

  /** The names `fileList` returns are distinct, and they are exactly the
      non-empty lines. */
  lemma FileListProps(files: string)
    ensures NoDuplicates(FileList(files))
    ensures forall x :: x in FileList(files) <==> x != "" && x in Split(files, '\n')
  {
    if files != "" {
      var lines := Filter(Split(files, '\n'), NonEmpty);
      NubbedProps(lines);
      forall x ensures x in lines <==> x != "" && x in Split(files, '\n') {
        FilterMembers(Split(files, '\n'), NonEmpty, x);
      }
    } else {
      assert Split(files, '\n') == [""];
    }
  }

  /** `fileWriteKeep(fname)`: only the bibliography output is sent back. */
  predicate FileWriteKeep(fname: string)
  {
    EndsWith(fname, "-bib.aux")
  }

  predicate WrittenKept(fname: string)
  {
    fname != "" && FileWriteKeep(fname)
  }

  /** The names `fileWriteList(files)` reads back. */
  function WrittenNames(files: string): seq<string>
  {
    if files == "" then [] else Nubbed(Filter(Split(files, '\n'), WrittenKept))
  }

  /** The names `fileWriteList` returns are distinct and are exactly the
      non-empty lines of `files` that `util.endsWith(_, "-bib.aux")` accepts,
      that is, whose first `-bib.aux` is at their end. */
  lemma WrittenNamesProps(files: string)
    ensures NoDuplicates(WrittenNames(files))
    ensures forall x :: x in WrittenNames(files) <==> x in Split(files, '\n') && x != "" && FileWriteKeep(x)
  {
    if files != "" {
      var lines := Filter(Split(files, '\n'), WrittenKept);
      NubbedProps(lines);
      forall x ensures x in lines <==> x in Split(files, '\n') && WrittenKept(x) {
        FilterMembers(Split(files, '\n'), WrittenKept, x);
      }
    } else {
      assert Split(files, '\n') == [""];
    }
  }

  /** Each name `fileWriteList` returns ends in `-bib.aux`. */
  lemma WrittenSuffix(files: string, x: string)
    requires x in WrittenNames(files)
    ensures |x| >= 8 && x[|x| - 8..] == "-bib.aux"
  {
    WrittenNamesProps(files);
    assert FileWriteKeep(x);
  }

  /** One file as requests and replies carry it: `{ path, content }`. */
  datatype FileEntry = FileEntry(path: string, content: string)

  /** A request: its `messageId`, its `type` and its `files` (an absent list
      acts like the empty one); `name` and `content` are the document a
      render request is about. */
  datatype Request = Request(messageId: int, kind: string, files: seq<FileEntry>, name: string, content: string)

  /** What `madoko.markdown` hands its continuation. */
  datatype Rendered = Rendered(md: string, stdout: string, runOnServer: bool,
                               filesRead: string, filesReferred: string, filesWrite: string)

  /** The messages the worker posts. */
  datatype Message =
    | Heartbeat(beat: nat)
    | Ready
    | Done(id: int)
    | Result(id: int, name: string, content: string, time: int, runOnServer: bool, message: string,
             filesRead: seq<string>, filesReferred: seq<string>, filesWritten: seq<FileEntry>)
    | Failed(id: int, error: string)

  /** The `messageId` field of a posted message. */
  function MessageId(m: Message): int
  {
    match m
    case Heartbeat(_) => -1
    case Ready => 0
    case Done(id) => id
    case Result(id, _, _, _, _, _, _, _, _) => id
    case Failed(id, _) => id
  }

  predicate IsReply(m: Message) { m.Done? || m.Result? || m.Failed? }

  /** The number of calls into the Madoko runtime a request makes before it
      is answered or, for a render request, before `markdown` is started:
      `clearStorage`; one `unlinkFile` per file; one `writeTextFile` per
      file and then `markdown`. */
  function Calls(req: Request): nat
  {
    if req.kind == "clear" then 1
    else if req.kind == "delete" then |req.files|
    else |req.files| + 1
  }

  /** A fault `Some((k, msg))` makes the `k`-th of those calls (from 0)
      throw an exception whose text is `msg`. */
  predicate Throws(fault: Option<(nat, string)>, k: nat)
  {
    fault.Some? && fault.value.0 == k
  }

  predicate Faulted(req: Request, fault: Option<(nat, string)>)
  {
    fault.Some? && fault.value.0 < Calls(req)
  }

  /** The number of files handled before a call throws. */
  function Reach(files: seq<FileEntry>, fault: Option<(nat, string)>): (n: nat)
    ensures n <= |files|
  {
    if fault.Some? && fault.value.0 < |files| then fault.value.0 else |files|
  }

  /** `local` after `local.remove(f.path)` for the first `n` files. */
  function Removed(local: map<string, bool>, files: seq<FileEntry>, n: nat): map<string, bool>
    requires n <= |files|
  {
    if n == 0 then local else Removed(local, files, n - 1) - {files[n - 1].path}
  }

  /** `local` after `local.set(f.path, true)` for the first `n` files. */
  function Marked(local: map<string, bool>, files: seq<FileEntry>, n: nat): map<string, bool>
    requires n <= |files|
  {
    if n == 0 then local else Marked(local, files, n - 1)[files[n - 1].path := true]
  }

  /** A removed path is gone; every other entry stays as it was. */
  lemma {:induction false} RemovedKeys(local: map<string, bool>, files: seq<FileEntry>, n: nat, key: string)
    requires n <= |files|
    ensures key in Removed(local, files, n) <==> key in local && forall j :: 0 <= j < n ==> files[j].path != key
    ensures key in Removed(local, files, n) ==> Removed(local, files, n)[key] == local[key]
  {
    if n > 0 {
      RemovedKeys(local, files, n - 1, key);
    }
  }

  /** A marked path holds `true`; every other entry stays as it was. */
  lemma {:induction false} MarkedKeys(local: map<string, bool>, files: seq<FileEntry>, n: nat, key: string)
    requires n <= |files|
    ensures key in Marked(local, files, n) <==> key in local || exists j :: 0 <= j < n && files[j].path == key
    ensures (exists j :: 0 <= j < n && files[j].path == key) ==> Marked(local, files, n)[key]
    ensures (forall j :: 0 <= j < n ==> files[j].path != key) && key in local ==>
              Marked(local, files, n)[key] == local[key]
  {
    if n > 0 {
      MarkedKeys(local, files, n - 1, key);
      if files[n - 1].path == key {
        assert key in Marked(local, files, n);
      }
    }
  }

  /** The file table after the handler has dealt with `req`: `clear`
      empties it, `delete` removes the files handled, any other request
      marks them present. */
  function LocalAfter(local: map<string, bool>, req: Request, fault: Option<(nat, string)>): map<string, bool>
  {
    if req.kind == "clear" then map[]
    else if req.kind == "delete" then Removed(local, req.files, Reach(req.files, fault))
    else Marked(local, req.files, Reach(req.files, fault))
  }

  /** The reply the handler posts at once, if any: the exception reply when a
      call throws, `{ messageId, err: null }` for `clear` and `delete`, none yet
      for a render request. Whichever it is, it carries the request's id. */
  function Reply(req: Request, fault: Option<(nat, string)>): (r: seq<Message>)
    ensures |r| <= 1
    ensures forall m :: m in r ==> IsReply(m) && MessageId(m) == req.messageId
    ensures (req.kind == "clear" || req.kind == "delete" || Faulted(req, fault)) <==> |r| == 1
  {
    if Faulted(req, fault) then [Failed(req.messageId, fault.value.1)]
    else if req.kind == "clear" || req.kind == "delete" then [Done(req.messageId)]
    else []
  }

  /** Whether `markdown` was started, so that its continuation will post the reply later. */
  predicate Started(req: Request, fault: Option<(nat, string)>)
  {
    req.kind != "clear" && req.kind != "delete" && !Faulted(req, fault)
  }

  /** The files `fileWriteList` sends back, with the contents `read` gives. */
  function Entries(names: seq<string>, read: string -> string, n: nat): (r: seq<FileEntry>)
    requires n <= |names|
    ensures |r| == n
  {
    if n == 0 then [] else Entries(names, read, n - 1) + [FileEntry(names[n - 1], read(names[n - 1]))]
  }

  lemma {:induction false} EntriesAt(names: seq<string>, read: string -> string, n: nat, k: nat)
    requires k < n <= |names|
    ensures Entries(names, read, n)[k] == FileEntry(names[k], read(names[k]))
  {
    if k < n - 1 {
      EntriesAt(names, read, n - 1, k);
    }
  }

  /** The heartbeat numbers among the posted messages, in order. */
  function Beats(ms: seq<Message>): seq<nat>
  {
    if ms == [] then []
    else Beats(ms[..|ms| - 1]) + (if ms[|ms| - 1].Heartbeat? then [ms[|ms| - 1].beat] else [])
  }

  /** `1, 2, ..., n`. */
  function CountTo(n: nat): (r: seq<nat>)
    ensures |r| == n
  {
    if n == 0 then [] else CountTo(n - 1) + [n]
  }

  lemma CountToAt(n: nat, k: nat)
    requires k < n
    ensures CountTo(n)[k] == k + 1
  {
    if k < n - 1 {
      CountToAt(n - 1, k);
    }
  }

  lemma BeatsAppend(ms: seq<Message>, m: Message)
    ensures Beats(ms + [m]) == Beats(ms) + (if m.Heartbeat? then [m.beat] else [])
  {
    assert (ms + [m])[..|ms|] == ms;
  }

  /** What the worker's state always satisfies: the heartbeats posted so far
      are numbered 1, 2, 3, ... up to the counter, and every reply carries
      the id of a request that was received. */
  ghost predicate WorkerOk(outbox: seq<Message>, heartbeat: nat, received: seq<int>, runs: seq<(Request, int)>)
  {
    Beats(outbox) == CountTo(heartbeat) &&
    (forall i :: 0 <= i < |outbox| && IsReply(outbox[i]) ==> MessageId(outbox[i]) in received) &&
    (forall i :: 0 <= i < |runs| ==> runs[i].0.messageId in received)
  }

  /** Posting a reply to a received request keeps the invariant. */
  lemma PostReply(outbox: seq<Message>, heartbeat: nat, received: seq<int>, runs: seq<(Request, int)>, m: Message)
    requires WorkerOk(outbox, heartbeat, received, runs)
    requires IsReply(m) && MessageId(m) in received
    ensures WorkerOk(outbox + [m], heartbeat, received, runs)
  {
    BeatsAppend(outbox, m);
  }

  lemma PostBeat(outbox: seq<Message>, heartbeat: nat, received: seq<int>, runs: seq<(Request, int)>)
    requires WorkerOk(outbox, heartbeat, received, runs)
    ensures WorkerOk(outbox + [Heartbeat(heartbeat + 1)], heartbeat + 1, received, runs)
  {
    BeatsAppend(outbox, Heartbeat(heartbeat + 1));
  }

  lemma PostReady(outbox: seq<Message>, heartbeat: nat, received: seq<int>, runs: seq<(Request, int)>)
    requires WorkerOk(outbox, heartbeat, received, runs)
    ensures WorkerOk(outbox + [Ready], heartbeat, received, runs)
  {
    BeatsAppend(outbox, Ready);
  }

  lemma Receive(outbox: seq<Message>, heartbeat: nat, received: seq<int>, runs: seq<(Request, int)>, id: int)
    requires WorkerOk(outbox, heartbeat, received, runs)
    ensures WorkerOk(outbox, heartbeat, received + [id], runs)
    ensures id in received + [id]
  {
  }

  /** The heartbeats the worker has posted are numbered 1, 2, 3, ... */
  lemma BeatNumbers(outbox: seq<Message>, heartbeat: nat, received: seq<int>, runs: seq<(Request, int)>, k: nat)
    requires WorkerOk(outbox, heartbeat, received, runs) && k < |Beats(outbox)|
    ensures Beats(outbox)[k] == k + 1
  {
    CountToAt(heartbeat, k);
  }

  /** The worker: the file table `local`, the heartbeat counter, the
      messages posted so far and the `markdown` runs whose continuation has
      not been called yet, each with its request and its start time. */
  class Worker {
    var local: map<string, bool>
    var heartbeat: nat
    var outbox: seq<Message>
    var runs: seq<(Request, int)>
    ghost var received: seq<int>

    ghost predicate Valid()
      reads this
    {
      WorkerOk(outbox, heartbeat, received, runs)
    }

    /** The script has started: nothing posted, the counter at zero. */
    constructor ()
      ensures Valid()
      ensures local == map[] && heartbeat == 0 && outbox == [] && runs == [] && received == []
    {
      local := map[];
      heartbeat := 0;
      outbox := [];
      runs := [];
      received := [];
    }

    /** The 15-second interval fires: the counter goes up and
        `{ messageId: -1, heartbeat }` is posted. */
    method Beat()
      requires Valid()
      modifies this
      ensures Valid()
      ensures heartbeat == old(heartbeat) + 1
      ensures outbox == old(outbox) + [Heartbeat(heartbeat)]
      ensures local == old(local) && runs == old(runs) && received == old(received)
    {
      PostBeat(outbox, heartbeat, received, runs);
      heartbeat := heartbeat + 1;
      outbox := outbox + [Heartbeat(heartbeat)];
    }

    /** The modules are loaded: `{ messageId: 0 }` signals readiness. */
    method Loaded()
      requires Valid()
      modifies this
      ensures Valid()
      ensures outbox == old(outbox) + [Ready]
      ensures local == old(local) && heartbeat == old(heartbeat) && runs == old(runs) && received == old(received)
    {
      PostReady(outbox, heartbeat, received, runs);
      outbox := outbox + [Ready];
    }

    /** The `message` handler: the synchronous part, up to the reply or up
        to the start of `markdown`. `now` is `Date.now()`. */
    method OnMessage(req: Request, now: int, fault: Option<(nat, string)>)
      requires Valid()
      modifies this
      ensures Valid()
      ensures local == LocalAfter(old(local), req, fault)
      ensures outbox == old(outbox) + Reply(req, fault)
      ensures runs == old(runs) + (if Started(req, fault) then [(req, now)] else [])
      ensures heartbeat == old(heartbeat) && received == old(received) + [req.messageId]
    {
      Receive(outbox, heartbeat, received, runs, req.messageId);
      received := received + [req.messageId];
      var threw: bool;
      if req.kind == "clear" {
        local := map[];
        threw := Throws(fault, 0);
      } else if req.kind == "delete" {
        threw := RemoveFiles(req.files, fault);
      } else {
        threw := WriteFiles(req.files, fault);
        if !threw {
          threw := Throws(fault, |req.files|);
        }
      }
      if threw {
        Fail(req, fault.value.1);
      } else if req.kind == "clear" || req.kind == "delete" {
        PostReply(outbox, heartbeat, received, runs, Done(req.messageId));
        outbox := outbox + [Done(req.messageId)];
      } else {
        runs := runs + [(req, now)];
      }
    }

    /** The `forEach` of a `delete` request: `unlinkFile(f.path)` and then
        `local.remove(f.path)` for each file, until a call throws. */
    method RemoveFiles(files: seq<FileEntry>, fault: Option<(nat, string)>) returns (threw: bool)
      modifies this
      ensures local == Removed(old(local), files, Reach(files, fault))
      ensures threw <==> fault.Some? && fault.value.0 < |files|
      ensures outbox == old(outbox) && runs == old(runs) && heartbeat == old(heartbeat) && received == old(received)
    {
      var k := 0;
      while k < |files|
        invariant k <= |files|
        invariant fault.Some? && fault.value.0 < |files| ==> k <= fault.value.0
        invariant local == Removed(old(local), files, k)
        invariant outbox == old(outbox) && runs == old(runs) && heartbeat == old(heartbeat) && received == old(received)
      {
        if Throws(fault, k) {
          return true;
        }
        local := local - {files[k].path};
        k := k + 1;
      }
      return false;
    }

    /** The `forEach` of a render request: `writeTextFile(f.path, f.content)`
        and then `local.set(f.path, true)` for each file, until a call throws. */
    method WriteFiles(files: seq<FileEntry>, fault: Option<(nat, string)>) returns (threw: bool)
      modifies this
      ensures local == Marked(old(local), files, Reach(files, fault))
      ensures threw <==> fault.Some? && fault.value.0 < |files|
      ensures outbox == old(outbox) && runs == old(runs) && heartbeat == old(heartbeat) && received == old(received)
    {
      var k := 0;
      while k < |files|
        invariant k <= |files|
        invariant fault.Some? && fault.value.0 < |files| ==> k <= fault.value.0
        invariant local == Marked(old(local), files, k)
        invariant outbox == old(outbox) && runs == old(runs) && heartbeat == old(heartbeat) && received == old(received)
      {
        if Throws(fault, k) {
          return true;
        }
        local := local[files[k].path := true];
        k := k + 1;
      }
      return false;
    }

    /** The `catch`: `{ messageId, message, err }` with the exception's text. */
    method Fail(req: Request, error: string)
      requires Valid() && req.messageId in received
      modifies this
      ensures Valid()
      ensures outbox == old(outbox) + [Failed(req.messageId, error)]
      ensures local == old(local) && heartbeat == old(heartbeat) && runs == old(runs) && received == old(received)
    {
      PostReply(outbox, heartbeat, received, runs, Failed(req.messageId, error));
      outbox := outbox + [Failed(req.messageId, error)];
    }

    /** `fileWriteList(files)`: read back the distinct `-bib.aux` files and
        mark each one present in `local`. `read` is `madoko.readTextFile`. */
    method FileWriteList(files: string, read: string -> string) returns (written: seq<FileEntry>)
      modifies this
      ensures written == Entries(WrittenNames(files), read, |WrittenNames(files)|)
      ensures local == Marked(old(local), written, |written|)
      ensures heartbeat == old(heartbeat) && outbox == old(outbox) && runs == old(runs) && received == old(received)
    {
      if files == "" {
        return [];
      }
      var lines := Split(files, '\n');
      var names := Nub(Filter(lines, WrittenKept));
      written := [];
      var i := 0;
      while i < |names|
        invariant i <= |names|
        invariant written == Entries(names, read, i)
        invariant local == Marked(old(local), written, i)
        invariant heartbeat == old(heartbeat) && outbox == old(outbox) && runs == old(runs) && received == old(received)
      {
        var content := read(names[i]);
        local := local[names[i] := true];
        ghost var prev := written;
        written := written + [FileEntry(names[i], content)];
        assert written[..i] == prev[..i];
        MarkedSame(old(local), written, prev, i);
        i := i + 1;
      }
    }

    /** The continuation of the `i`-th pending `markdown` run: post the
        result with the request's id, the time since the run started and
        the file lists, and drop the run. */
    method OnRendered(i: nat, out: Rendered, now: int, read: string -> string)
      requires Valid() && i < |runs|
      modifies this
      ensures Valid()
      ensures outbox == old(outbox) + [RenderReply(old(runs)[i].0, old(runs)[i].1, out, now, read)]
      ensures local == Marked(old(local), WrittenFiles(out.filesWrite, read), |WrittenNames(out.filesWrite)|)
      ensures runs == old(runs)[..i] + old(runs)[i + 1..]
      ensures heartbeat == old(heartbeat) && received == old(received)
    {
      var (req, t0) := runs[i];
      var filesRead := FileList(out.filesRead);
      var filesReferred := FileList(out.filesReferred);
      var written := FileWriteList(out.filesWrite, read);
      var m := Result(req.messageId, req.name, out.md, now - t0, out.runOnServer, out.stdout,
                      filesRead, filesReferred, written);
      DropRun(outbox, heartbeat, received, runs, i, m);
      outbox := outbox + [m];
      runs := runs[..i] + runs[i + 1..];
    }
  }

  /** The files `fileWriteList` sends back, with the contents `read` gives. */
  function WrittenFiles(files: string, read: string -> string): seq<FileEntry>
  {
    Entries(WrittenNames(files), read, |WrittenNames(files)|)
  }

  /** The reply the `markdown` continuation posts for `req`, started at `t0`. */
  function RenderReply(req: Request, t0: int, out: Rendered, now: int, read: string -> string): (m: Message)
    ensures IsReply(m) && MessageId(m) == req.messageId
  {
    Result(req.messageId, req.name, out.md, now - t0, out.runOnServer, out.stdout,
           FileList(out.filesRead), FileList(out.filesReferred), WrittenFiles(out.filesWrite, read))
  }

  /** Answering a pending run and dropping it keeps the invariant. */
  lemma DropRun(outbox: seq<Message>, heartbeat: nat, received: seq<int>, runs: seq<(Request, int)>, i: nat, m: Message)
    requires WorkerOk(outbox, heartbeat, received, runs) && i < |runs|
    requires IsReply(m) && MessageId(m) == runs[i].0.messageId
    ensures WorkerOk(outbox + [m], heartbeat, received, runs[..i] + runs[i + 1..])
  {
    BeatsAppend(outbox, m);
    var rest := runs[..i] + runs[i + 1..];
    forall j | 0 <= j < |rest| ensures rest[j].0.messageId in received {
      if j < i {
        assert rest[j] == runs[j];
      } else {
        assert rest[j] == runs[j + 1];
      }
    }
  }

  lemma {:induction false} MarkedSame(local: map<string, bool>, a: seq<FileEntry>, b: seq<FileEntry>, n: nat)
    requires n <= |a| && n <= |b| && a[..n] == b[..n]
    ensures Marked(local, a, n) == Marked(local, b, n)
  {
    if n > 0 {
      assert a[n - 1] == a[..n][n - 1] == b[..n][n - 1] == b[n - 1];
      assert a[..n - 1] == a[..n][..n - 1];
      assert b[..n - 1] == b[..n][..n - 1];
      MarkedSame(local, a, b, n - 1);
    }
  }

  /** After a render completes, each file read back is marked present. */
  lemma WrittenMarked(local: map<string, bool>, files: string, read: string -> string, x: string)
    requires x in WrittenNames(files)
    ensures var written := Entries(WrittenNames(files), read, |WrittenNames(files)|);
            x in Marked(local, written, |written|) && Marked(local, written, |written|)[x]
  {
    var names := WrittenNames(files);
    var written := Entries(names, read, |names|);
    var k :| 0 <= k < |names| && names[k] == x;
    EntriesAt(names, read, |names|, k);
    MarkedKeys(local, written, |written|, x);
  }
}
