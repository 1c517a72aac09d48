/**
  The request fan-out: a batcher, a pool of workers and a collector that meet over unbuffered
  channels. Every channel meeting and every server answer is one step, and steps interleave freely.
 */
module FanOut {
  import opened Batching

  /** A response carries the key of its request and the liquidity the server reports. */
  datatype Resp = Resp(key: string, delta: int)

  /** A worker waits for a batch, asks the server, hands on the answers, has met an error, or is gone. */
  datatype Worker =
    | Idle
    | Asking(batch: seq<Req>)
    | Delivering(queue: seq<Resp>)
    | Failing(lost: seq<string>)
    | Stopped(dropped: seq<string>)

  datatype Phase = Running | Returned(resps: seq<Resp>) | Errored

  /** `pending` holds the batches not handed out yet; `served` is everything the server has answered. */
  datatype State = State(pending: seq<seq<Req>>, workers: seq<Worker>, collected: seq<Resp>,
                         outcome: Phase, served: multiset<Resp>)

  /**
    The steps: the batcher hands a batch to an idle worker; the server answers a worker's batch; a
    worker delivers its next response to the collector; a request or a response goes wrong; a worker
    reports its error to the collector; the context is cancelled; a worker is told to stop.
   */
  datatype Action =
    | Hand(w: nat)
    | Answer(w: nat, resps: seq<Resp>)
    | Deliver(w: nat)
    | Break(w: nat)
    | Report(w: nat)
    | Cancel
    | Stop(w: nat)

  function Ids(reqs: seq<Req>): seq<string>
  {
    if reqs == [] then [] else [reqs[0].id] + Ids(reqs[1..])
  }

  function Keys(resps: seq<Resp>): seq<string>
  {
    if resps == [] then [] else [resps[0].key] + Keys(resps[1..])
  }

  /** The server answers a batch with one response per request, in any order. */
  ghost predicate Honest(batch: seq<Req>, resps: seq<Resp>)
  {
    multiset(Keys(resps)) == multiset(Ids(batch))
  }

  function IdleWorkers(n: nat): seq<Worker>
  {
    if n == 0 then [] else [Idle] + IdleWorkers(n - 1)
  }

  function Start(reqs: seq<Req>, limit: nat, workers: nat): State
    requires 0 < limit
  {
    State(Batches(reqs, limit), IdleWorkers(workers), [], if reqs == [] then Returned([]) else Running, multiset{})
  }

  ghost predicate Enabled(s: State, a: Action)
  {
    match a
    case Hand(w) => w < |s.workers| && s.workers[w].Idle? && s.pending != []
    case Answer(w, resps) => w < |s.workers| && s.workers[w].Asking? && Honest(s.workers[w].batch, resps)
    case Deliver(w) => w < |s.workers| && Queue(s.workers[w]) != [] && s.outcome.Running?
    case Break(w) => w < |s.workers| && (s.workers[w].Asking? || s.workers[w].Delivering?)
    case Report(w) => w < |s.workers| && s.workers[w].Failing? && s.outcome.Running?
    case Cancel => s.outcome.Running?
    case Stop(w) => w < |s.workers| && (s.workers[w].Idle? || s.workers[w].Delivering?) && s.outcome.Errored?
  }

  /** The keys a worker is responsible for. */
  function Load(w: Worker): seq<string>
  {
    match w
    case Idle => []
    case Asking(batch) => Ids(batch)
    case Delivering(queue) => Keys(queue)
    case Failing(lost) => lost
    case Stopped(dropped) => dropped
  }

  /** The state after a step; `total` is the number of responses the collector waits for. */
  ghost function Take(s: State, a: Action, total: nat): State
    requires Enabled(s, a)
  {
    match a
    case Hand(w) => s.(pending := s.pending[1..], workers := s.workers[w := Asking(s.pending[0])])
    case Answer(w, resps) =>
      s.(workers := s.workers[w := if resps == [] then Idle else Delivering(resps)], served := s.served + multiset(resps))
    case Deliver(w) =>
      var queue := s.workers[w].queue;
      var collected := s.collected + [queue[0]];
      s.(workers := s.workers[w := if |queue| == 1 then Idle else Delivering(queue[1..])],
         collected := collected,
         outcome := if |collected| == total then Returned(collected) else Running)
    case Break(w) => s.(workers := s.workers[w := Failing(Load(s.workers[w]))])
    case Report(w) => s.(workers := s.workers[w := Stopped(s.workers[w].lost)], outcome := Errored)
    case Cancel => s.(outcome := Errored)
    case Stop(w) => s.(workers := s.workers[w := Stopped(Load(s.workers[w]))])
  }

  // --- What is in flight -----------------------------------------------------------------------

  function Count<T(==)>(xs: seq<T>, x: T): nat
  {
    multiset(xs)[x]
  }

  function Queue(w: Worker): seq<Resp>
  {
    if w.Delivering? then w.queue else []
  }

  /** How often the workers together hold a key. */
  function Held(workers: seq<Worker>, key: string): nat
  {
    if workers == [] then 0 else Count(Load(workers[0]), key) + Held(workers[1..], key)
  }

  /** How often the workers together queue a response. */
  function Queued(workers: seq<Worker>, r: Resp): nat
  {
    if workers == [] then 0 else Count(Queue(workers[0]), r) + Queued(workers[1..], r)
  }

  /** How many keys the workers hold altogether. */
  function Size(workers: seq<Worker>): nat
  {
    if workers == [] then 0 else |Load(workers[0])| + Size(workers[1..])
  }

  lemma {:induction false} Replace(workers: seq<Worker>, w: nat, x: Worker, key: string, r: Resp)
    requires w < |workers|
    ensures Held(workers[w := x], key) == Held(workers, key) - Count(Load(workers[w]), key) + Count(Load(x), key)
    ensures Queued(workers[w := x], r) == Queued(workers, r) - Count(Queue(workers[w]), r) + Count(Queue(x), r)
    ensures Size(workers[w := x]) == Size(workers) - |Load(workers[w])| + |Load(x)|
  {
    hide Count, Load, Queue;
    if w == 0 {
      assert workers[w := x][1..] == workers[1..];
    } else {
      assert workers[w := x][1..] == workers[1..][w - 1 := x];
      Replace(workers[1..], w - 1, x, key, r);
    }
  }

  lemma {:induction false} IdleHoldsNothing(n: nat, key: string, r: Resp)
    ensures Held(IdleWorkers(n), key) == 0 && Queued(IdleWorkers(n), r) == 0 && Size(IdleWorkers(n)) == 0
    ensures |IdleWorkers(n)| == n && forall k :: 0 <= k < n ==> IdleWorkers(n)[k].Idle?
  {
    if n > 0 {
      assert IdleWorkers(n)[1..] == IdleWorkers(n - 1);
      IdleHoldsNothing(n - 1, key, r);
    }
  }

  lemma {:induction false} HolderIsCounted(workers: seq<Worker>, w: nat)
    requires w < |workers|
    ensures |Load(workers[w])| <= Size(workers)
  {
    if w > 0 {
      HolderIsCounted(workers[1..], w - 1);
    }
  }

  lemma CountConcat<T>(a: seq<T>, b: seq<T>, x: T)
    ensures Count(a + b, x) == Count(a, x) + Count(b, x)
  {
  }

  lemma {:induction false} IdsConcat(a: seq<Req>, b: seq<Req>)
    ensures Ids(a + b) == Ids(a) + Ids(b)
  {
    if a == [] {
      assert a + b == b;
    } else {
      assert (a + b)[1..] == a[1..] + b;
      IdsConcat(a[1..], b);
    }
  }

  lemma {:induction false} KeysAppend(a: seq<Resp>, r: Resp)
    ensures Keys(a + [r]) == Keys(a) + [r.key]
  {
    if a == [] {
      assert a + [r] == [r];
    } else {
      assert (a + [r])[1..] == a[1..] + [r];
      KeysAppend(a[1..], r);
    }
  }

  lemma {:induction false} IdsLength(reqs: seq<Req>)
    ensures |Ids(reqs)| == |reqs|
  {
    if reqs != [] {
      IdsLength(reqs[1..]);
    }
  }

  lemma {:induction false} KeysLength(resps: seq<Resp>)
    ensures |Keys(resps)| == |resps|
  {
    if resps != [] {
      KeysLength(resps[1..]);
    }
  }

  // --- The invariant ---------------------------------------------------------------------------

  predicate Occupied(w: Worker)
  {
    w.Idle? || Load(w) != [] || w.Stopped?
  }

  /** No worker holds an empty batch or an empty queue, and no batch is empty. */
  ghost predicate NothingEmpty(s: State)
  {
    && (forall k :: 0 <= k < |s.workers| ==> Occupied(s.workers[k]))
    && (forall k :: 0 <= k < |s.pending| ==> s.pending[k] != [])
  }

  /** Every request is pending, with a worker, or collected, exactly once. */
  ghost predicate KeyAccounted(s: State, reqs: seq<Req>, key: string)
  {
    Count(Ids(Flatten(s.pending)), key) + Held(s.workers, key) + Count(Keys(s.collected), key) == Count(Ids(reqs), key)
  }

  ghost predicate NumberAccounted(s: State, reqs: seq<Req>)
  {
    |Flatten(s.pending)| + Size(s.workers) + |s.collected| == |reqs|
  }

  ghost predicate NoTrouble(s: State)
  {
    forall k :: 0 <= k < |s.workers| ==> !s.workers[k].Failing? && !s.workers[k].Stopped?
  }

  /** As long as no worker is in trouble, every answer of the server is queued or collected. */
  ghost predicate AnswerKept(s: State, r: Resp)
  {
    NoTrouble(s) ==> Queued(s.workers, r) + Count(s.collected, r) == s.served[r]
  }

  ghost predicate NoneStopped(s: State)
  {
    forall k :: 0 <= k < |s.workers| ==> !s.workers[k].Stopped?
  }

  /** The collector returns with the last response, and workers are stopped only after an error. */
  ghost predicate Settled(s: State, reqs: seq<Req>)
  {
    match s.outcome
    case Running => |s.collected| < |reqs| && NoneStopped(s)
    case Returned(resps) => resps == s.collected && |s.collected| == |reqs| && NoneStopped(s)
    case Errored => true
  }

  ghost predicate Inv(s: State, reqs: seq<Req>)
  {
    && NothingEmpty(s)
    && (forall key :: KeyAccounted(s, reqs, key))
    && NumberAccounted(s, reqs)
    && (forall r :: AnswerKept(s, r))
    && Settled(s, reqs)
  }

  lemma StartInv(reqs: seq<Req>, limit: nat, workers: nat)
    requires 0 < limit
    ensures Inv(Start(reqs, limit, workers), reqs)
  {
    var s := Start(reqs, limit, workers);
    BatchesPartition(reqs, limit);
    hide Batches, Flatten;
    forall key ensures KeyAccounted(s, reqs, key) {
      IdleHoldsNothing(workers, key, Resp(key, 0));
    }
    forall r: Resp ensures AnswerKept(s, r) {
      IdleHoldsNothing(workers, r.key, r);
    }
    IdleHoldsNothing(workers, "", Resp("", 0));
  }

  // --- Every step keeps it ---------------------------------------------------------------------

  lemma CountEmpty<T>(x: T)
    ensures Count([], x) == 0
  {
  }

  /** The accounts of one key, of the number of requests, and of one response. */
  ghost predicate Books(s: State, reqs: seq<Req>, key: string, r: Resp)
  {
    KeyAccounted(s, reqs, key) && NumberAccounted(s, reqs) && AnswerKept(s, r)
  }

  lemma TroubleStays(s: State, a: Action)
    requires Enabled(s, a) && NoTrouble(Take(s, a, 0))
    ensures NoTrouble(s)
  {
    var t := Take(s, a, 0);
    hide Load;
    forall k | 0 <= k < |s.workers| ensures !s.workers[k].Failing? && !s.workers[k].Stopped? {
      assert !t.workers[k].Failing? && !t.workers[k].Stopped?;
    }
  }

  lemma TroubleShows(s: State, a: Action, total: nat)
    requires Enabled(s, a) && (a.Break? || a.Report? || a.Stop?)
    ensures !NoTrouble(Take(s, a, total))
  {
    var x := Take(s, a, total).workers[a.w];
    assert x.Failing? || x.Stopped?;
  }

  lemma TotalIrrelevant(s: State, a: Action, m: nat, n: nat)
    requires Enabled(s, a)
    ensures NoTrouble(Take(s, a, m)) == NoTrouble(Take(s, a, n))
  {
  }

  lemma HandKeeps(s: State, w: nat, reqs: seq<Req>, key: string, r: Resp)
    requires Books(s, reqs, key, r) && Enabled(s, Hand(w))
    ensures Books(Take(s, Hand(w), |reqs|), reqs, key, r)
  {
    hide Count, Ids, Keys, Held, Queued, Size, Flatten, NoTrouble;
    var batch, rest := s.pending[0], s.pending[1..];
    Replace(s.workers, w, Asking(batch), key, r);
    HandedOut(s.pending, key);
    CountEmpty(key);
    CountEmpty(r);
    TotalIrrelevant(s, Hand(w), 0, |reqs|);
    if NoTrouble(Take(s, Hand(w), |reqs|)) {
      TroubleStays(s, Hand(w));
    }
  }

  lemma HandedOut(pending: seq<seq<Req>>, key: string)
    requires pending != []
    ensures Count(Ids(Flatten(pending)), key) == Count(Ids(pending[0]), key) + Count(Ids(Flatten(pending[1..])), key)
    ensures |Flatten(pending)| == |Ids(pending[0])| + |Flatten(pending[1..])|
  {
    IdsConcat(pending[0], Flatten(pending[1..]));
    IdsLength(pending[0]);
    CountConcat(Ids(pending[0]), Ids(Flatten(pending[1..])), key);
  }

  /** A step that changes one worker balances if what the worker loses is what the collector or the server gains. */
  lemma OneWorkerMoves(s: State, t: State, w: nat, x: Worker, reqs: seq<Req>, key: string, r: Resp)
    requires Books(s, reqs, key, r)
    requires w < |s.workers| && t.workers == s.workers[w := x] && t.pending == s.pending
    requires Count(Load(x), key) + Count(Keys(t.collected), key)
          == Count(Load(s.workers[w]), key) + Count(Keys(s.collected), key)
    requires |Load(x)| + |t.collected| == |Load(s.workers[w])| + |s.collected|
    requires NoTrouble(t) ==> NoTrouble(s)
    requires NoTrouble(t) ==>
               Count(Queue(x), r) + Count(t.collected, r) + s.served[r]
               == Count(Queue(s.workers[w]), r) + Count(s.collected, r) + t.served[r]
    ensures Books(t, reqs, key, r)
  {
    hide Count, Ids, Keys, Held, Queued, Size, Flatten, NoTrouble, Load, Queue;
    Replace(s.workers, w, x, key, r);
  }

  lemma AnswerKeeps(s: State, w: nat, resps: seq<Resp>, reqs: seq<Req>, key: string, r: Resp)
    requires Books(s, reqs, key, r) && Enabled(s, Answer(w, resps))
    ensures Books(Take(s, Answer(w, resps), |reqs|), reqs, key, r)
  {
    hide Count, Ids, Keys, NoTrouble, Honest, Books;
    var x := if resps == [] then Idle else Delivering(resps);
    var t := Take(s, Answer(w, resps), |reqs|);
    AnswerLoad(s.workers[w].batch, resps, x, key, r);
    CountEmpty(r);
    TotalIrrelevant(s, Answer(w, resps), 0, |reqs|);
    if NoTrouble(t) {
      TroubleStays(s, Answer(w, resps));
    }
    OneWorkerMoves(s, t, w, x, reqs, key, r);
  }

  lemma AnswerLoad(batch: seq<Req>, resps: seq<Resp>, x: Worker, key: string, r: Resp)
    requires Honest(batch, resps) && x == if resps == [] then Idle else Delivering(resps)
    ensures Count(Load(x), key) == Count(Ids(batch), key) && |Load(x)| == |Ids(batch)|
    ensures Count(Queue(x), r) == multiset(resps)[r]
  {
    assert |multiset(Keys(resps))| == |Keys(resps)| && |multiset(Ids(batch))| == |Ids(batch)|;
  }

  lemma DeliverKeeps(s: State, w: nat, reqs: seq<Req>, key: string, r: Resp)
    requires Books(s, reqs, key, r) && Enabled(s, Deliver(w))
    ensures Books(Take(s, Deliver(w), |reqs|), reqs, key, r)
  {
    hide Count, Keys, NoTrouble, Books;
    var queue := s.workers[w].queue;
    var x := if |queue| == 1 then Idle else Delivering(queue[1..]);
    var t := Take(s, Deliver(w), |reqs|);
    DeliverLoad(queue, x, key, r);
    KeysAppend(s.collected, queue[0]);
    CountConcat(Keys(s.collected), [queue[0].key], key);
    CountConcat(s.collected, [queue[0]], r);
    TotalIrrelevant(s, Deliver(w), 0, |reqs|);
    if NoTrouble(t) {
      TroubleStays(s, Deliver(w));
    }
    OneWorkerMoves(s, t, w, x, reqs, key, r);
  }

  lemma DeliverLoad(queue: seq<Resp>, x: Worker, key: string, r: Resp)
    requires queue != [] && x == if |queue| == 1 then Idle else Delivering(queue[1..])
    ensures Count(Keys(queue), key) == Count([queue[0].key], key) + Count(Load(x), key)
    ensures |Keys(queue)| == 1 + |Load(x)|
    ensures Count(queue, r) == Count([queue[0]], r) + Count(Queue(x), r)
  {
    assert queue == [queue[0]] + queue[1..];
    CountConcat([queue[0].key], Keys(queue[1..]), key);
    CountConcat([queue[0]], queue[1..], r);
  }

  lemma TroubleKeeps(s: State, a: Action, reqs: seq<Req>, key: string, r: Resp)
    requires Books(s, reqs, key, r) && Enabled(s, a)
    requires a.Break? || a.Report? || a.Stop?
    ensures Books(Take(s, a, |reqs|), reqs, key, r)
  {
    hide Count, Keys, NoTrouble, Load, Queue, Books;
    var t := Take(s, a, |reqs|);
    SameLoad(s, a);
    TroubleShows(s, a, |reqs|);
    OneWorkerMoves(s, t, a.w, t.workers[a.w], reqs, key, r);
  }

  lemma SameLoad(s: State, a: Action)
    requires Enabled(s, a)
    requires a.Break? || a.Report? || a.Stop?
    ensures Load(Take(s, a, 0).workers[a.w]) == Load(s.workers[a.w])
  {
  }

  lemma StepBooks(s: State, a: Action, reqs: seq<Req>, key: string, r: Resp)
    requires Books(s, reqs, key, r) && Enabled(s, a)
    ensures Books(Take(s, a, |reqs|), reqs, key, r)
  {
    hide Books, Take;
    match a
    case Hand(w) => HandKeeps(s, w, reqs, key, r);
    case Answer(w, resps) => AnswerKeeps(s, w, resps, reqs, key, r);
    case Deliver(w) => DeliverKeeps(s, w, reqs, key, r);
    case Cancel => CancelKeeps(s, reqs, key, r);
    case _ => TroubleKeeps(s, a, reqs, key, r);
  }

  lemma CancelKeeps(s: State, reqs: seq<Req>, key: string, r: Resp)
    requires Books(s, reqs, key, r) && Enabled(s, Cancel)
    ensures Books(Take(s, Cancel, |reqs|), reqs, key, r)
  {
    hide Count, Ids, Keys, Held, Queued, Size, Flatten;
  }

  lemma MovedIsOccupied(s: State, a: Action, total: nat)
    requires NothingEmpty(s) && Enabled(s, a) && !a.Cancel?
    ensures Occupied(Take(s, a, total).workers[a.w])
  {
    hide Honest;
    assert Occupied(s.workers[a.w]);
  }

  lemma OnlyOneMoves(s: State, a: Action, total: nat)
    requires Enabled(s, a) && !a.Cancel?
    ensures var t := Take(s, a, total);
            && a.w < |s.workers| == |t.workers|
            && t.workers == s.workers[a.w := t.workers[a.w]]
            && (t.pending == s.pending || (s.pending != [] && t.pending == s.pending[1..]))
  {
    hide Honest, Load;
  }

  lemma StepShape(s: State, a: Action, total: nat)
    requires NothingEmpty(s) && Enabled(s, a)
    ensures NothingEmpty(Take(s, a, total))
  {
    hide Enabled, Occupied, Load, Flatten;
    if a.Cancel? {
      assert Take(s, a, total).workers == s.workers && Take(s, a, total).pending == s.pending;
    } else {
      MovedIsOccupied(s, a, total);
      OnlyOneMoves(s, a, total);
      hide Take, NothingEmpty;
      var t := Take(s, a, total);
      ShapeAfterMove(s, t, a.w, t.workers[a.w]);
    }
  }

  lemma ShapeAfterMove(s: State, t: State, w: nat, x: Worker)
    requires NothingEmpty(s) && w < |s.workers| && Occupied(x)
    requires t.workers == s.workers[w := x]
    requires t.pending == s.pending || (s.pending != [] && t.pending == s.pending[1..])
    ensures NothingEmpty(t)
  {
    hide Occupied;
  }

  lemma StepSettled(s: State, a: Action, reqs: seq<Req>)
    requires Enabled(s, a) && Settled(s, reqs)
    ensures Settled(Take(s, a, |reqs|), reqs)
  {
    hide Load;
  }

  /** Every step, in every interleaving, keeps the invariant. */
  lemma StepInv(s: State, a: Action, reqs: seq<Req>)
    requires Inv(s, reqs) && Enabled(s, a)
    ensures Inv(Take(s, a, |reqs|), reqs)
  {
    hide Take, KeyAccounted, NumberAccounted, AnswerKept, Settled, Enabled;
    var t := Take(s, a, |reqs|);
    StepShape(s, a, |reqs|);
    StepSettled(s, a, reqs);
    forall key: string ensures KeyAccounted(t, reqs, key) && NumberAccounted(t, reqs) {
      StepBooks(s, a, reqs, key, Resp("", 0));
    }
    assert KeyAccounted(t, reqs, "");
    forall r: Resp ensures AnswerKept(t, r) {
      StepBooks(s, a, reqs, "", r);
    }
  }

  // --- Whole runs ------------------------------------------------------------------------------

  /** An execution: any interleaving of enabled steps, with the state before and after each. */
  ghost predicate Execution(states: seq<State>, actions: seq<Action>, reqs: seq<Req>, limit: nat, workers: nat)
    requires 0 < limit
  {
    && |states| == |actions| + 1
    && states[0] == Start(reqs, limit, workers)
    && forall i :: 0 <= i < |actions| ==>
         Enabled(states[i], actions[i]) && states[i + 1] == Take(states[i], actions[i], |reqs|)
  }

  lemma {:induction false} ExecutionInv(states: seq<State>, actions: seq<Action>, reqs: seq<Req>, limit: nat, workers: nat, i: nat)
    requires 0 < limit && Execution(states, actions, reqs, limit, workers) && i <= |actions|
    ensures Inv(states[i], reqs) && |states[i].workers| == workers
    decreases i
  {
    hide Inv, Take, Enabled;
    if i == 0 {
      StartInv(reqs, limit, workers);
      IdleHoldsNothing(workers, "", Resp("", 0));
    } else {
      ExecutionInv(states, actions, reqs, limit, workers, i - 1);
      StepInv(states[i - 1], actions[i - 1], reqs);
      SameWorkers(states[i - 1], actions[i - 1], |reqs|);
    }
  }

  lemma SameWorkers(s: State, a: Action, total: nat)
    requires Enabled(s, a)
    ensures |Take(s, a, total).workers| == |s.workers|
  {
  }

  lemma NothingPending(pending: seq<seq<Req>>)
    requires |Flatten(pending)| == 0 && forall k :: 0 <= k < |pending| ==> pending[k] != []
    ensures pending == []
  {
  }

  /** When everything has been collected, every worker is idle. */
  lemma CollectedAll(s: State, reqs: seq<Req>)
    requires NothingEmpty(s) && NumberAccounted(s, reqs) && NoneStopped(s) && |s.collected| == |reqs|
    ensures s.pending == [] && forall k :: 0 <= k < |s.workers| ==> s.workers[k].Idle?
  {
    NothingPending(s.pending);
    forall k | 0 <= k < |s.workers| ensures s.workers[k].Idle? {
      HolderIsCounted(s.workers, k);
      hide Size, Flatten;
    }
  }

  lemma {:induction false} AllIdle(workers: seq<Worker>, key: string, r: Resp)
    requires forall k :: 0 <= k < |workers| ==> workers[k].Idle?
    ensures Held(workers, key) == 0 && Queued(workers, r) == 0
  {
    if workers != [] {
      AllIdle(workers[1..], key, r);
    }
  }

  /**
    Under every interleaving, a successful call returns one response per request: its keys are a
    permutation of the request keys, and it is a permutation of everything the server answered. By then
    nothing is pending and every worker is idle.
   */
  lemma ReturnedIsComplete(states: seq<State>, actions: seq<Action>, reqs: seq<Req>, limit: nat, workers: nat)
    requires 0 < limit && Execution(states, actions, reqs, limit, workers)
    requires states[|actions|].outcome.Returned?
    ensures var s := states[|actions|];
            && multiset(Keys(s.outcome.resps)) == multiset(Ids(reqs))
            && multiset(s.outcome.resps) == s.served
            && s.pending == []
            && forall k :: 0 <= k < |s.workers| ==> s.workers[k].Idle?
  {
    ExecutionInv(states, actions, reqs, limit, workers, |actions|);
    hide Execution;
    var s := states[|actions|];
    CollectedAll(s, reqs);
    forall key: string ensures Count(Keys(s.collected), key) == Count(Ids(reqs), key) {
      assert KeyAccounted(s, reqs, key);
      AllIdle(s.workers, key, Resp("", 0));
      CountEmpty(key);
      hide Count, Held;
    }
    forall r: Resp ensures Count(s.collected, r) == s.served[r] {
      assert AnswerKept(s, r);
      assert NoTrouble(s);
      AllIdle(s.workers, "", r);
      hide Count, Queued;
    }
    hide Inv;
    SameCounts(Keys(s.collected), Ids(reqs));
    assert forall r: Resp :: multiset(s.collected)[r] == Count(s.collected, r);
    assert multiset(s.collected) == s.served;
  }

  lemma SameCounts(a: seq<string>, b: seq<string>)
    requires forall key :: Count(a, key) == Count(b, key)
    ensures multiset(a) == multiset(b)
  {
    forall key: string ensures multiset(a)[key] == multiset(b)[key] {
      assert Count(a, key) == Count(b, key);
    }
  }

  // --- Progress --------------------------------------------------------------------------------

  /** The steps of a call in which nothing goes wrong. */
  predicate Smooth(a: Action)
  {
    a.Hand? || a.Answer? || a.Deliver?
  }

  function Left(w: Worker): nat
  {
    match w
    case Asking(batch) => 2 * |batch|
    case Delivering(queue) => |queue|
    case _ => 0
  }

  function AllLeft(workers: seq<Worker>): nat
  {
    if workers == [] then 0 else Left(workers[0]) + AllLeft(workers[1..])
  }

  /** Meetings still to come: three per pending request, two per request being asked, one per answer queued. */
  function Measure(s: State): nat
  {
    3 * |Flatten(s.pending)| + AllLeft(s.workers)
  }

  lemma {:induction false} ReplaceLeft(workers: seq<Worker>, w: nat, x: Worker)
    requires w < |workers|
    ensures AllLeft(workers[w := x]) == AllLeft(workers) - Left(workers[w]) + Left(x)
  {
    hide Left;
    if w == 0 {
      assert workers[w := x][1..] == workers[1..];
    } else {
      assert workers[w := x][1..] == workers[1..][w - 1 := x];
      ReplaceLeft(workers[1..], w - 1, x);
    }
  }

  lemma HandMeasure(s: State, w: nat, total: nat)
    requires NothingEmpty(s) && Enabled(s, Hand(w))
    ensures Measure(Take(s, Hand(w), total)) < Measure(s)
  {
    hide AllLeft;
    ReplaceLeft(s.workers, w, Asking(s.pending[0]));
    assert Flatten(s.pending) == s.pending[0] + Flatten(s.pending[1..]);
  }

  lemma AnswerMeasure(s: State, w: nat, resps: seq<Resp>, total: nat)
    requires NothingEmpty(s) && Enabled(s, Answer(w, resps))
    ensures Measure(Take(s, Answer(w, resps), total)) < Measure(s)
  {
    hide AllLeft, Flatten;
    var batch := s.workers[w].batch;
    ReplaceLeft(s.workers, w, if resps == [] then Idle else Delivering(resps));
    assert Load(s.workers[w]) != [];
    SameLength(batch, resps);
  }

  lemma SameLength(batch: seq<Req>, resps: seq<Resp>)
    requires Honest(batch, resps)
    ensures |batch| == |resps| && (Ids(batch) != [] ==> batch != [])
  {
    IdsLength(batch);
    KeysLength(resps);
    assert |multiset(Keys(resps))| == |multiset(Ids(batch))|;
  }

  lemma DeliverMeasure(s: State, w: nat, total: nat)
    requires Enabled(s, Deliver(w))
    ensures Measure(Take(s, Deliver(w), total)) < Measure(s)
  {
    hide AllLeft, Flatten;
    var queue := s.workers[w].queue;
    ReplaceLeft(s.workers, w, if |queue| == 1 then Idle else Delivering(queue[1..]));
  }

  /** Every smooth step lowers the measure. */
  lemma MeasureFalls(s: State, a: Action, total: nat)
    requires NothingEmpty(s) && Enabled(s, a) && Smooth(a)
    ensures Measure(Take(s, a, total)) < Measure(s)
  {
    hide Measure, Take, NothingEmpty;
    match a
    case Hand(w) => HandMeasure(s, w, total);
    case Answer(w, resps) => AnswerMeasure(s, w, resps, total);
    case Deliver(w) => DeliverMeasure(s, w, total);
  }

  /** Until the call returns, some smooth step is enabled, whatever the workers are doing. */
  lemma NeverStuck(s: State, reqs: seq<Req>)
    requires NothingEmpty(s) && NumberAccounted(s, reqs) && Settled(s, reqs)
    requires s.outcome.Running? && NoTrouble(s) && 0 < |s.workers|
    ensures exists a :: Smooth(a) && Enabled(s, a)
  {
    if w :| 0 <= w < |s.workers| && s.workers[w].Asking? {
      var resps := ServerAnswer(s.workers[w].batch);
      assert Enabled(s, Answer(w, resps));
    } else if w :| 0 <= w < |s.workers| && s.workers[w].Delivering? {
      assert Load(s.workers[w]) != [];
      assert Enabled(s, Deliver(w));
    } else {
      AllIdleSize(s.workers);
      assert s.pending != [];
      assert Enabled(s, Hand(0));
    }
  }

  lemma {:induction false} AllIdleSize(workers: seq<Worker>)
    requires forall k :: 0 <= k < |workers| ==> workers[k].Idle?
    ensures Size(workers) == 0
  {
    if workers != [] {
      AllIdleSize(workers[1..]);
    }
  }

  /** A server can always answer honestly. */
  lemma {:induction false} ServerAnswer(batch: seq<Req>) returns (resps: seq<Resp>)
    ensures Honest(batch, resps) && Keys(resps) == Ids(batch)
  {
    if batch == [] {
      resps := [];
    } else {
      var rest := ServerAnswer(batch[1..]);
      resps := [Resp(batch[0].id, 0)] + rest;
      assert resps[1..] == rest;
    }
  }

  /**
    A call in which nothing goes wrong takes at most three steps per request; as long as it has not
    returned it can go on, so every such execution that cannot go on has returned.
   */
  lemma {:induction false} SmoothRunsReturn(states: seq<State>, actions: seq<Action>, reqs: seq<Req>, limit: nat, workers: nat)
    requires 0 < limit && 0 < workers && Execution(states, actions, reqs, limit, workers)
    requires forall i :: 0 <= i < |actions| ==> Smooth(actions[i])
    ensures |actions| <= 3 * |reqs|
    ensures states[|actions|].outcome.Returned? || exists a :: Smooth(a) && Enabled(states[|actions|], a)
  {
    var s := states[|actions|];
    ExecutionInv(states, actions, reqs, limit, workers, |actions|);
    SmoothStates(states, actions, reqs, limit, workers, |actions|);
    if s.outcome.Running? {
      hide Execution, Measure;
      NeverStuck(s, reqs);
    }
  }

  lemma {:induction false} SmoothStates(states: seq<State>, actions: seq<Action>, reqs: seq<Req>, limit: nat, workers: nat, i: nat)
    requires 0 < limit && Execution(states, actions, reqs, limit, workers) && i <= |actions|
    requires forall i :: 0 <= i < |actions| ==> Smooth(actions[i])
    ensures i + Measure(states[i]) <= 3 * |reqs|
    ensures NoTrouble(states[i]) && !states[i].outcome.Errored?
    decreases i
  {
    hide Inv, Start, Take, Enabled, Measure, NoTrouble;
    if i == 0 {
      StartMeasure(reqs, limit, workers);
    } else {
      SmoothStates(states, actions, reqs, limit, workers, i - 1);
      ExecutionInv(states, actions, reqs, limit, workers, i - 1);
      SmoothStep(states[i - 1], actions[i - 1], reqs);
    }
  }

  lemma SmoothStep(s: State, a: Action, reqs: seq<Req>)
    requires Inv(s, reqs) && Enabled(s, a) && Smooth(a) && NoTrouble(s) && !s.outcome.Errored?
    ensures var t := Take(s, a, |reqs|);
            Measure(t) < Measure(s) && NoTrouble(t) && !t.outcome.Errored?
  {
    hide Take, Enabled, Measure, NoTrouble;
    MeasureFalls(s, a, |reqs|);
    StaysCalm(s, a, |reqs|);
  }

  lemma StaysCalm(s: State, a: Action, total: nat)
    requires Enabled(s, a) && Smooth(a) && NoTrouble(s) && !s.outcome.Errored?
    ensures var t := Take(s, a, total);
            NoTrouble(t) && !t.outcome.Errored?
  {
  }

  lemma StartMeasure(reqs: seq<Req>, limit: nat, workers: nat)
    requires 0 < limit
    ensures var s := Start(reqs, limit, workers);
            Measure(s) == 3 * |reqs| && NoTrouble(s) && !s.outcome.Errored?
  {
    BatchesPartition(reqs, limit);
    NothingLeft(workers);
  }

  lemma {:induction false} NothingLeft(n: nat)
    ensures AllLeft(IdleWorkers(n)) == 0
    ensures forall k :: 0 <= k < |IdleWorkers(n)| ==> IdleWorkers(n)[k].Idle?
  {
    if n > 0 {
      assert IdleWorkers(n)[1..] == IdleWorkers(n - 1);
      NothingLeft(n - 1);
    }
  }
}
