/** `ContWorker` (web/client/scripts/util.js): a channel to a web worker that
    turns fire-and-forget `postMessage` into requests whose replies are matched
    by `messageId`, queues requests until the worker says it is ready, times
    requests out, and restarts the worker when its heartbeat stops.

    Timers, the clock and the worker itself are outside the model: each timer
    firing and each message from the worker is a method call, the clock value
    is a parameter, and what is posted to the worker is recorded in the
    outbox `sent`. Promises are handles (numbers, allocated in order); every
    attempt to resolve one is recorded in the ghost log `outcomes`. */
module WorkerChannel {
  import opened Js

  /** A message as the channel's `_onComplete` receives it. A `heartbeat` of 0
      stands for an absent (falsy) field; `body` is the rest of the reply. */
  datatype Message<B> = Message(messageId: Option<int>, heartbeat: int, timedOut: bool, body: Option<B>)

  /** The result synthesised for a request that timed out or was pending at a restart. */
  function TimedOut<B>(id: int): Message<B> {
    Message(Some(id), 0, true, None)
  }

  /** The worker's ready signal, `{messageId: 0}`. */
  function ReadySignal<B>(): Message<B> {
    Message(Some(0), 0, false, None)
  }

  /** An entry of the pending table: the request's promise, the promise a
      replayed queue entry chained to it with `.then` (if any), and whether a
      timeout timer was armed. */
  datatype Pending = Pending(promise: nat, chained: Option<nat>, timer: bool)

  /** A request accepted before the worker was ready. */
  datatype Queued<I> = Queued(info: I, promise: nat, timeout: int)

  /** A message posted to worker number `worker`, stamped with `messageId`. */
  datatype Sent<I> = Sent(worker: nat, messageId: int, info: I)

  /** A watchdog tick restarts the worker when the previous tick came more than
      this many milliseconds after the last heartbeat. */
  const LivenessWindow: int := 45000

  /** Adds one resolution attempt with `m` for promise `p` to the log. */
  ghost function Record<B>(out: map<nat, seq<Message<B>>>, p: nat, m: Message<B>): map<nat, seq<Message<B>>>
  {
    out[p := (if p in out then out[p] else []) + [m]]
  }

  /** Resolving a pending entry resolves its promise and, through `.then`,
      the queued promise chained to it. */
  ghost function Resolve<B>(out: map<nat, seq<Message<B>>>, e: Pending, m: Message<B>): map<nat, seq<Message<B>>>
  {
    var o := Record(out, e.promise, m);
    if e.chained.Some? then Record(o, e.chained.value, m) else o
  }

  /** The log after `restart` has timed out, in increasing id order, every
      entry of `pend` whose id lies in [lo, hi). */
  ghost function ResolveRange<B>(out: map<nat, seq<Message<B>>>, pend: map<int, Pending>, lo: int, hi: int): map<nat, seq<Message<B>>>
    decreases hi - lo
  {
    if hi <= lo then out
    else
      var o := ResolveRange(out, pend, lo, hi - 1);
      if hi - 1 in pend then Resolve(o, pend[hi - 1], TimedOut(hi - 1)) else o
  }

  /** The pending table `base` after the first `n` entries of the queue `q`
      are replayed with ids from `u0` on and fresh promises from `pc0` on. */
  ghost function FlushPending<I>(base: map<int, Pending>, q: seq<Queued<I>>, n: nat, u0: int, pc0: nat): map<int, Pending>
    requires n <= |q|
  {
    if n == 0 then base
    else FlushPending(base, q, n - 1, u0, pc0)[u0 + n - 1 := Pending(pc0 + n - 1, Some(q[n - 1].promise), q[n - 1].timeout > 1)]
  }

  /** The outbox `base` after the first `n` entries of the queue `q` are replayed. */
  ghost function FlushSent<I>(base: seq<Sent<I>>, q: seq<Queued<I>>, n: nat, w: nat, u0: int): seq<Sent<I>>
    requires n <= |q|
  {
    if n == 0 then base
    else FlushSent(base, q, n - 1, w, u0) + [Sent(w, u0 + n - 1, q[n - 1].info)]
  }

  /** Replaying posts the queue entries after `base`, in queue order, with
      consecutive ids from `u0`. */
  lemma {:induction false} FlushSentAt<I>(base: seq<Sent<I>>, q: seq<Queued<I>>, n: nat, w: nat, u0: int, k: nat)
    requires n <= |q| && k < |base| + n
    ensures |FlushSent(base, q, n, w, u0)| == |base| + n
    ensures FlushSent(base, q, n, w, u0)[k] == if k < |base| then base[k] else Sent(w, u0 + (k - |base|), q[k - |base|].info)
  {
    FlushSentLength(base, q, n, w, u0);
    if n > 0 && k < |base| + n - 1 {
      FlushSentAt(base, q, n - 1, w, u0, k);
    }
  }

  lemma {:induction false} FlushSentLength<I>(base: seq<Sent<I>>, q: seq<Queued<I>>, n: nat, w: nat, u0: int)
    requires n <= |q|
    ensures |FlushSent(base, q, n, w, u0)| == |base| + n
  {
    if n > 0 {
      FlushSentLength(base, q, n - 1, w, u0);
    }
  }

  /** Replaying gives the `k`-th queue entry the id `u0 + k`, a fresh promise
      `pc0 + k` chained to the entry's own promise, and a timer iff its
      timeout exceeds 1 ms; every other id keeps its entry in `base`. */
  lemma {:induction false} FlushPendingAt<I>(base: map<int, Pending>, q: seq<Queued<I>>, n: nat, u0: int, pc0: nat, id: int)
    requires n <= |q|
    ensures id in FlushPending(base, q, n, u0, pc0) <==> id in base || u0 <= id < u0 + n
    ensures u0 <= id < u0 + n ==>
      FlushPending(base, q, n, u0, pc0)[id] == Pending(pc0 + (id - u0), Some(q[id - u0].promise), q[id - u0].timeout > 1)
    ensures !(u0 <= id < u0 + n) && id in base ==> FlushPending(base, q, n, u0, pc0)[id] == base[id]
  {
    if n > 0 {
      FlushPendingAt(base, q, n - 1, u0, pc0, id);
    }
  }

  /** Each pending promise, not yet resolved, is resolved exactly once, with
      the timed-out result for its id, when `restart` sweeps the table; the
      promises pending entries chain to are not themselves pending. */
  lemma {:induction false} ResolveRangeEach<B>(out: map<nat, seq<Message<B>>>, pend: map<int, Pending>, lo: int, hi: int, id: int)
    requires id in pend && lo <= id < hi
    requires forall j :: j in pend ==> pend[j].promise !in out
    requires forall i, j :: i in pend && j in pend && i != j ==> pend[i].promise != pend[j].promise
    requires forall i, j :: i in pend && j in pend && pend[j].chained.Some? ==> pend[j].chained.value != pend[i].promise
    ensures pend[id].promise in ResolveRange(out, pend, lo, hi)
    ensures ResolveRange(out, pend, lo, hi)[pend[id].promise] == [TimedOut(id)]
    decreases hi - lo
  {
    var p := pend[id].promise;
    if hi - 1 == id {
      ResolveRangeUntouched(out, pend, lo, hi - 1, p);
    } else {
      ResolveRangeEach(out, pend, lo, hi - 1, id);
    }
  }

  /** A promise that no entry in [lo, hi) owns or chains is left alone by the sweep. */
  lemma {:induction false} ResolveRangeUntouched<B>(out: map<nat, seq<Message<B>>>, pend: map<int, Pending>, lo: int, hi: int, p: nat)
    requires forall j :: j in pend && lo <= j < hi ==> pend[j].promise != p && (pend[j].chained.Some? ==> pend[j].chained.value != p)
    ensures (p in ResolveRange(out, pend, lo, hi)) == (p in out)
    ensures p in out ==> ResolveRange(out, pend, lo, hi)[p] == out[p]
    decreases hi - lo
  {
    if lo < hi {
      ResolveRangeUntouched(out, pend, lo, hi - 1, p);
    }
  }

  ghost predicate TableOk<B>(pend: map<int, Pending>, unique: int, queued: set<nat>, out: map<nat, seq<Message<B>>>, pc: nat)
  {
    && (forall id :: id in pend ==> 1 <= id < unique)
    && (forall id :: id in pend ==> pend[id].promise < pc && pend[id].promise !in out && pend[id].promise !in queued)
    && (forall i, j :: i in pend && j in pend && i != j ==> pend[i].promise != pend[j].promise)
    && (forall id :: id in pend && pend[id].chained.Some? ==> pend[id].chained.value in queued)
    && (forall p :: p in queued ==> p < pc)
    && (forall p :: p in out ==> p < pc)
  }

  /** Ids posted to one worker increase, and those posted to the current
      worker `w` lie below `unique`. */
  ghost predicate SentOk<I>(sent: seq<Sent<I>>, w: nat, unique: int)
  {
    && (forall k :: 0 <= k < |sent| ==> sent[k].worker <= w)
    && (forall k :: 0 <= k < |sent| && sent[k].worker == w ==> 1 <= sent[k].messageId < unique)
    && (forall i, j :: 0 <= i < j < |sent| && sent[i].worker == sent[j].worker ==> sent[i].messageId < sent[j].messageId)
  }

  /** The invariant of a channel, on the values of its fields: ids below
      `unique`; the table's promises are distinct, not yet resolved and not
      queued; chained promises are queued ones; every handle in use was
      allocated; nothing is pending before the worker is ready. */
  ghost predicate ChannelOk<I, B>(pend: map<int, Pending>, unique: int, ready: bool, queued: set<nat>,
                                  out: map<nat, seq<Message<B>>>, pc: nat, pq: seq<Queued<I>>, sent: seq<Sent<I>>, w: nat)
  {
    && 1 <= unique
    && (!ready ==> pend == map[] && unique == 1)
    && TableOk(pend, unique, queued, out, pc)
    && (forall k :: 0 <= k < |pq| ==> pq[k].promise in queued)
    && SentOk(sent, w, unique)
  }

  /** `Dispatch` keeps the invariant. */
  lemma DispatchOk<I, B>(pend: map<int, Pending>, unique: int, queued: set<nat>, out: map<nat, seq<Message<B>>>,
                         pc: nat, pq: seq<Queued<I>>, sent: seq<Sent<I>>, w: nat, info: I, chained: Option<nat>, timer: bool)
    requires ChannelOk(pend, unique, true, queued, out, pc, pq, sent, w)
    requires chained.Some? ==> chained.value in queued
    ensures ChannelOk(pend[unique := Pending(pc, chained, timer)], unique + 1, true, queued, out, pc + 1, pq,
                      sent + [Sent(w, unique, info)], w)
  {
    TableAdd(pend, unique, queued, out, pc, chained, timer);
    SentAdd(sent, w, unique, info);
  }

  /** Entering a request with a fresh promise under the next id keeps the table well formed. */
  lemma TableAdd<B>(pend: map<int, Pending>, unique: int, queued: set<nat>, out: map<nat, seq<Message<B>>>, pc: nat,
                    chained: Option<nat>, timer: bool)
    requires TableOk(pend, unique, queued, out, pc) && 1 <= unique
    requires chained.Some? ==> chained.value in queued
    ensures TableOk(pend[unique := Pending(pc, chained, timer)], unique + 1, queued, out, pc + 1)
  {
  }

  /** Resolving and removing one entry keeps the table well formed. */
  lemma TableRemove<B>(pend: map<int, Pending>, unique: int, queued: set<nat>, out: map<nat, seq<Message<B>>>, pc: nat,
                       id: int, m: Message<B>)
    requires TableOk(pend, unique, queued, out, pc) && id in pend
    ensures TableOk(pend - {id}, unique, queued, Resolve(out, pend[id], m), pc)
    ensures Resolve(out, pend[id], m)[pend[id].promise] == [m]
  {
  }

  /** Posting the next id to the current worker keeps the outbox well formed. */
  lemma SentAdd<I>(sent: seq<Sent<I>>, w: nat, unique: int, info: I)
    requires SentOk(sent, w, unique) && 1 <= unique
    ensures SentOk(sent + [Sent(w, unique, info)], w, unique + 1)
  {
  }

  class ContWorker<I, B> {
    /** The pending table, message id to entry. */
    var promises: map<int, Pending>
    /** The id the next dispatched request gets. */
    var unique: int
    /** Requests accepted while the worker was not ready; never emptied. */
    var postqueue: seq<Queued<I>>
    var ready: bool
    /** Time of the last heartbeat (or of the last restart). */
    var heartbeat: int
    /** Time of the previous watchdog tick; `None` before the first one. */
    var lastBeat: Option<int>
    /** Which worker is current: each restart terminates it and creates the next. */
    var worker: nat
    /** How many promises have been created; also the next promise's handle. */
    var promiseCount: nat
    /** Every message posted to a worker, in order: what the workers receive. */
    var sent: seq<Sent<I>>
    /** Every attempt to resolve each promise, in order. */
    ghost var outcomes: map<nat, seq<Message<B>>>
    /** The promises of the queue entries. */
    ghost var queued: set<nat>

    /** The pending table is well formed: ids below `unique`; its promises
        are distinct, not yet resolved and not queued; chained promises are
        queued ones; every handle in use was allocated. */
    ghost predicate Valid()
      reads this
    {
      ChannelOk(promises, unique, ready, queued, outcomes, promiseCount, postqueue, sent, worker)
    }

    /** `new ContWorker(scriptName)`: empty tables, then the first `restart`
        (which has no worker to terminate). */
    constructor (now: int)
      ensures Valid()
      ensures promises == map[] && unique == 1 && postqueue == [] && !ready
      ensures heartbeat == now && lastBeat == None && worker == 0 && promiseCount == 0
      ensures sent == [] && outcomes == map[]
    {
      promises := map[];
      unique := 1;
      postqueue := [];
      ready := false;
      heartbeat := now;
      lastBeat := None;
      worker := 0;
      promiseCount := 0;
      sent := [];
      outcomes := map[];
      queued := {};
    }

    /** The ready branch of `postMessage`, followed (for a replayed queue entry)
        by `.then(chained)`: stamp `info` with the next id, arm a timer when
        `timeout > 1`, enter the request into the table and post it. */
    method Dispatch(info: I, timeout: int, chained: Option<nat>) returns (p: nat)
      requires Valid() && ready
      requires chained.Some? ==> chained.value in queued
      modifies this
      ensures Valid()
      ensures p == old(promiseCount) && promiseCount == p + 1
      ensures unique == old(unique) + 1
      ensures promises == old(promises)[old(unique) := Pending(p, chained, timeout > 1)]
      ensures sent == old(sent) + [Sent(worker, old(unique), info)]
      ensures ready && postqueue == old(postqueue) && worker == old(worker) && outcomes == old(outcomes)
      ensures heartbeat == old(heartbeat) && lastBeat == old(lastBeat)
    {
      DispatchOk(promises, unique, queued, outcomes, promiseCount, postqueue, sent, worker, info, chained, timeout > 1);
      p := promiseCount;
      promiseCount := promiseCount + 1;
      var id := unique;
      unique := unique + 1;
      promises := promises[id := Pending(p, chained, timeout > 1)];
      sent := sent + [Sent(worker, id, info)];
    }

    /** `postMessage(info, timeout)`: queue the request while the worker is
        not ready (nothing is posted), otherwise dispatch it at once. */
    method PostMessage(info: I, timeout: int) returns (p: nat)
      requires Valid()
      modifies this
      ensures Valid()
      ensures p == old(promiseCount) && promiseCount == p + 1
      ensures !old(ready) ==>
        && postqueue == old(postqueue) + [Queued(info, p, timeout)]
        && promises == old(promises) && unique == old(unique) && sent == old(sent)
      ensures old(ready) ==>
        && postqueue == old(postqueue) && unique == old(unique) + 1
        && promises == old(promises)[old(unique) := Pending(p, None, timeout > 1)]
        && sent == old(sent) + [Sent(worker, old(unique), info)]
      ensures ready == old(ready) && worker == old(worker) && outcomes == old(outcomes)
      ensures heartbeat == old(heartbeat) && lastBeat == old(lastBeat)
    {
      if !ready {
        p := promiseCount;
        promiseCount := promiseCount + 1;
        postqueue := postqueue + [Queued(info, p, timeout)];
        queued := queued + {p};
      } else {
        p := Dispatch(info, timeout, None);
      }
    }

    /** The ready branch of `_onComplete`: mark the worker ready and replay the
        whole queue, in order, through `postMessage`. */
    method Flush()
      requires Valid()
      modifies this
      ensures Valid() && ready
      ensures unique == old(unique) + |postqueue| && promiseCount == old(promiseCount) + |postqueue|
      ensures promises == FlushPending(old(promises), postqueue, |postqueue|, old(unique), old(promiseCount))
      ensures sent == FlushSent(old(sent), postqueue, |postqueue|, worker, old(unique))
      ensures postqueue == old(postqueue) && worker == old(worker) && outcomes == old(outcomes)
      ensures heartbeat == old(heartbeat) && lastBeat == old(lastBeat)
    {
      ghost var u0, pc0, pr0, s0 := unique, promiseCount, promises, sent;
      ready := true;
      var k := 0;
      while k < |postqueue|
        invariant 0 <= k <= |postqueue|
        invariant Valid() && ready
        invariant unique == u0 + k && promiseCount == pc0 + k
        invariant promises == FlushPending(pr0, postqueue, k, u0, pc0)
        invariant sent == FlushSent(s0, postqueue, k, worker, u0)
        invariant postqueue == old(postqueue) && worker == old(worker) && outcomes == old(outcomes)
        invariant heartbeat == old(heartbeat) && lastBeat == old(lastBeat)
      {
        var q := postqueue[k];
        ghost var np := FlushPending(pr0, postqueue, k, u0, pc0)[u0 + k := Pending(pc0 + k, Some(q.promise), q.timeout > 1)];
        ghost var ns := FlushSent(s0, postqueue, k, worker, u0) + [Sent(worker, u0 + k, q.info)];
        assert FlushPending(pr0, postqueue, k + 1, u0, pc0) == np;
        assert FlushSent(s0, postqueue, k + 1, worker, u0) == ns;
        var _ := Dispatch(q.info, q.timeout, Some(q.promise));
        assert promises == np && sent == ns;
        k := k + 1;
      }
    }

    /** `_onComplete(info)` for a message from the worker, at time `now`:
        ignore it without a `messageId`; a heartbeat only refreshes
        `heartbeat`; id 0 is the ready signal; any other id resolves and
        removes its pending entry, if there is one. */
    method OnMessage(m: Message<B>, now: int)
      requires Valid()
      modifies this
      ensures Valid()
      ensures m.messageId.None? ==>
        && promises == old(promises) && unique == old(unique) && ready == old(ready)
        && heartbeat == old(heartbeat) && sent == old(sent) && outcomes == old(outcomes)
      ensures m.messageId.Some? && m.heartbeat != 0 ==>
        && heartbeat == now
        && promises == old(promises) && unique == old(unique) && ready == old(ready)
        && sent == old(sent) && outcomes == old(outcomes)
      ensures m.messageId == Some(0) && m.heartbeat == 0 ==>
        && ready && heartbeat == old(heartbeat)
        && unique == old(unique) + |postqueue| && promiseCount == old(promiseCount) + |postqueue|
        && promises == FlushPending(old(promises), postqueue, |postqueue|, old(unique), old(promiseCount))
        && sent == FlushSent(old(sent), postqueue, |postqueue|, worker, old(unique)) && outcomes == old(outcomes)
      ensures m.messageId.Some? && m.messageId != Some(0) && m.heartbeat == 0 ==>
        && heartbeat == old(heartbeat) && unique == old(unique) && ready == old(ready) && sent == old(sent)
        && promises == old(promises) - {m.messageId.value}
        && outcomes == (if m.messageId.value in old(promises)
                        then Resolve(old(outcomes), old(promises)[m.messageId.value], m)
                        else old(outcomes))
        && (m.messageId.value in old(promises) ==>
              outcomes[old(promises)[m.messageId.value].promise] == [m])
      ensures !(m.messageId == Some(0) && m.heartbeat == 0) ==> promiseCount == old(promiseCount)
      ensures postqueue == old(postqueue) && worker == old(worker) && lastBeat == old(lastBeat)
    {
      if m.messageId.None? {
        return;
      }
      if m.heartbeat != 0 {
        heartbeat := now;
      } else if m.messageId.value == 0 {
        Flush();
      } else {
        var id := m.messageId.value;
        if id in promises {
          TableRemove(promises, unique, queued, outcomes, promiseCount, id, m);
          var e := promises[id];
          promises := promises - {id};
          outcomes := Resolve(outcomes, e, m);
        }
      }
    }

    /** The timer armed for request `id` fires: `_onComplete` with a synthesised
        timed-out result. The timer is cleared whenever the entry leaves the
        table, so it can only fire while the entry is there. */
    method Timeout(id: int)
      requires Valid()
      requires id in promises && promises[id].timer
      modifies this
      ensures Valid()
      ensures promises == old(promises) - {id}
      ensures outcomes == Resolve(old(outcomes), old(promises)[id], TimedOut(id))
      ensures outcomes[old(promises)[id].promise] == [TimedOut(id)]
      ensures unique == old(unique) && ready == old(ready) && sent == old(sent) && postqueue == old(postqueue)
      ensures heartbeat == old(heartbeat) && lastBeat == old(lastBeat) && worker == old(worker)
      ensures promiseCount == old(promiseCount)
    {
      TableRemove(promises, unique, queued, outcomes, promiseCount, id, TimedOut(id));
      var e := promises[id];
      promises := promises - {id};
      outcomes := Resolve(outcomes, e, TimedOut(id));
    }

    /** `restart()` at time `now`: terminate the worker, time out every pending
        request in increasing id order, reset `unique` and `ready`, create the
        next worker and count its start as a heartbeat. The queue is kept. */
    method Restart(now: int)
      requires Valid()
      modifies this
      ensures Valid()
      ensures promises == map[] && unique == 1 && !ready && heartbeat == now
      ensures worker == old(worker) + 1
      ensures outcomes == ResolveRange(old(outcomes), old(promises), 1, old(unique))
      ensures forall id :: id in old(promises) ==>
        old(promises)[id].promise in outcomes && outcomes[old(promises)[id].promise] == [TimedOut(id)]
      ensures postqueue == old(postqueue) && sent == old(sent) && lastBeat == old(lastBeat)
      ensures promiseCount == old(promiseCount)
    {
      ghost var pend := promises;
      var i := 1;
      while i < unique
        invariant 1 <= i <= unique
        invariant outcomes == ResolveRange(old(outcomes), pend, 1, i)
        invariant forall p :: p in outcomes ==> p < promiseCount
        invariant promises == pend && unique == old(unique) && promiseCount == old(promiseCount)
        invariant postqueue == old(postqueue) && sent == old(sent) && lastBeat == old(lastBeat)
        invariant ready == old(ready) && worker == old(worker) && heartbeat == old(heartbeat)
        invariant queued == old(queued)
      {
        if i in promises {
          outcomes := Resolve(outcomes, promises[i], TimedOut(i));
        }
        i := i + 1;
      }
      forall id | id in pend
        ensures pend[id].promise in outcomes && outcomes[pend[id].promise] == [TimedOut(id)]
      {
        ResolveRangeEach(old(outcomes), pend, 1, old(unique), id);
      }
      promises := map[];
      unique := 1;
      ready := false;
      worker := worker + 1;
      heartbeat := now;
    }

    /** One firing of the 15-second watchdog interval at time `now`: restart
        when the PREVIOUS tick came more than `LivenessWindow` after the last
        heartbeat (never on the first tick), then remember `now`. */
    method WatchdogTick(now: int)
      requires Valid()
      modifies this
      ensures Valid()
      ensures lastBeat == Some(now)
      ensures var dead := old(lastBeat).Some? && old(lastBeat).value - old(heartbeat) > LivenessWindow;
        && (dead ==> worker == old(worker) + 1 && promises == map[] && unique == 1 && !ready && heartbeat == now
                     && outcomes == ResolveRange(old(outcomes), old(promises), 1, old(unique)))
        && (!dead ==> worker == old(worker) && promises == old(promises) && unique == old(unique)
                      && ready == old(ready) && heartbeat == old(heartbeat) && outcomes == old(outcomes))
      ensures postqueue == old(postqueue) && sent == old(sent) && promiseCount == old(promiseCount)
    {
      if lastBeat.Some? && lastBeat.value - heartbeat > LivenessWindow {
        Restart(now);
      }
      lastBeat := Some(now);
    }
  }

  /** Two requests made before the ready signal are posted, once it arrives,
      in the order they were made, as requests 1 and 2 of the first worker. */
  method QueuedRequestsKeepOrder() returns (posted: seq<Sent<string>>)
    ensures posted == [Sent(0, 1, "A"), Sent(0, 2, "B")]
  {
    var ch := new ContWorker<string, string>(0);
    var pa := ch.PostMessage("A", 0);
    var pb := ch.PostMessage("B", 0);
    ch.OnMessage(ReadySignal(), 1);
    assert ch.postqueue == [Queued("A", 0, 0), Queued("B", 1, 0)];
    FlushSentAt([], ch.postqueue, 2, 0, 1, 0);
    FlushSentAt([], ch.postqueue, 2, 0, 1, 1);
    posted := ch.sent;
  }

  /** A request made before the first ready signal, posted once the worker
      is ready and answered with `reply`. */
  method AnsweredBeforeRestart() returns (ch: ContWorker<string, string>, p: nat, reply: Message<string>)
    ensures fresh(ch) && ch.Valid() && ch.ready && ch.worker == 0 && ch.promises == map[]
    ensures ch.promiseCount == 2 && ch.unique == 2 && p == 0
    ensures ch.postqueue == [Queued("A", p, 0)] && ch.sent == [Sent(0, 1, "A")]
    ensures p in ch.outcomes && ch.outcomes[p] == [reply] && reply == Message(Some(1), 0, false, Some("done"))
  {
    reply := Message(Some(1), 0, false, Some("done"));
    ch := new ContWorker<string, string>(0);
    p := ch.PostMessage("A", 0);
    ch.OnMessage(ReadySignal(), 1);
    FlushSentAt([], ch.postqueue, 1, 0, 1, 0);
    FlushPendingAt(map[], ch.postqueue, 1, 1, 1, 1);
    assert ch.promises == map[1 := Pending(1, Some(p), false)];
    assert ch.outcomes == map[];
    ch.OnMessage(reply, 2);
    assert ch.outcomes == Resolve(map[], Pending(1, Some(p), false), reply);
  }

  /** The queue outlives a restart: a request made before the first ready
      signal is answered, yet it is posted again to the next worker once that
      one is ready, and timing that copy out at the next restart resolves the
      caller's promise a second time. A queued promise thus gets one
      resolution attempt per worker generation; a promise entered for a
      posted request alone is settled at most once. */
  method ReplayAfterRestart() returns (ch: ContWorker<string, string>, p: nat, posted: seq<Sent<string>>)
    ensures posted == [Sent(0, 1, "A"), Sent(1, 1, "A")]
    ensures p in ch.outcomes && |ch.outcomes[p]| == 2
  {
    var reply;
    ch, p, reply := AnsweredBeforeRestart();
    ch.Restart(3);
    assert ch.outcomes[p] == [reply];
    ch.OnMessage(ReadySignal(), 4);
    ghost var before := ch.outcomes;
    ghost var q, s := ch.postqueue, ch.sent;
    FlushSentAt([Sent(0, 1, "A")], q, 1, 1, 1, 0);
    FlushSentAt([Sent(0, 1, "A")], q, 1, 1, 1, 1);
    assert s == [Sent(0, 1, "A"), Sent(1, 1, "A")];
    FlushPendingAt(map[], q, 1, 1, 2, 1);
    assert ch.promises == map[1 := Pending(2, Some(p), false)];
    ch.Restart(5);
    assert ch.outcomes == Resolve(before, Pending(2, Some(p), false), TimedOut(1));
    posted := ch.sent;
  }
}
