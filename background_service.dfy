/** ProductUpdateBackgroundService.ExecuteAsync, run sequentially. What happens
    around each iteration is an input: `script[i]` says whether iteration i runs
    undisturbed, faults (an exception other than cancellation, raised before the
    store is touched, for example while resolving the service), or sees the stopping
    token cancelled at the dequeue or while the job runs. When the script is used
    up, the token is cancelled at the loop's own check. A dequeue from an empty
    queue waits, and in a sequential run nothing but the stopping token can end
    that wait, so it ends in cancellation. */
module ProductUpdateWorker {
  import opened Domain
  import opened QuantityCommand
  import opened InMemory
  import opened ProductUpdateQueue
  import opened UpdateQuantityV2

  datatype Interference = Undisturbed | Faults | CancelledAtDequeue | CancelledDuring

  /** The state a run leaves behind: the store, the commands still queued, the
      repository calls made and the entries logged between start and stop. */
  datatype Run = Run(store: map<Guid, Product>, pending: seq<Command>, calls: seq<RepoCall>, log: seq<LogEvent>)

  /** What one iteration does: the store, queue, calls and log it leaves, and
      whether the loop stops after it. */
  datatype Iteration = Iteration(store: map<Guid, Product>, pending: seq<Command>, calls: seq<RepoCall>, log: seq<LogEvent>, stop: bool)

  /** One pass of the loop body: dequeue, then process the job inside the failure
      boundary. */
  function Step(pending: seq<Command>, store: map<Guid, Product>, s: Interference): (it: Iteration)
    requires Keyed(store)
    ensures Keyed(it.store) && it.store.Keys == store.Keys
    ensures it.stop <==> s == CancelledAtDequeue || s == CancelledDuring || pending == []
    ensures s == CancelledAtDequeue || pending == [] ==> it == Iteration(store, pending, [], [JobCancelled(None)], true)
    ensures it.log != []
    ensures s != CancelledAtDequeue && pending != [] ==>
      && it.pending == pending[1..]
      && it.log[0] == JobProcessing(pending[0])
      && (s != Undisturbed ==> it.store == store && it.calls == [])
  {
    if s == CancelledAtDequeue || pending == [] then Iteration(store, pending, [], [JobCancelled(None)], true)
    else
      var item := pending[0];
      match s
      case CancelledDuring => Iteration(store, pending[1..], [], [JobProcessing(item), JobCancelled(Some(item))], true)
      case Faults => Iteration(store, pending[1..], [], [JobProcessing(item), JobFailed], false)
      case Undisturbed =>
        var o := Apply(store, item);
        Iteration(o.store, pending[1..], o.calls, [JobProcessing(item)] + o.log + [JobProcessed(item)], false)
  }

  /** The loop body repeated over `script`, starting from queue `pending`. */
  function Drain(pending: seq<Command>, store: map<Guid, Product>, script: seq<Interference>): (r: Run)
    requires Keyed(store)
    ensures Keyed(r.store) && r.store.Keys == store.Keys
    decreases |script|
  {
    if script == [] then Run(store, pending, [], [])
    else
      var it := Step(pending, store, script[0]);
      if it.stop then Run(it.store, it.pending, it.calls, it.log)
      else
        var rest := Drain(it.pending, it.store, script[1..]);
        Run(rest.store, rest.pending, it.calls + rest.calls, it.log + rest.log)
  }

  /** The commands a log shows being taken from the queue, in order. */
  function Taken(log: seq<LogEvent>): (items: seq<Command>)
    ensures |items| <= |log|
  {
    if log == [] then []
    else (if log[0].JobProcessing? then [log[0].item] else []) + Taken(log[1..])
  }

  /** The commands a log shows processed to the end, in order. */
  function Processed(log: seq<LogEvent>): (items: seq<Command>)
    ensures |items| <= |log|
  {
    if log == [] then []
    else (if log[0].JobProcessed? then [log[0].item] else []) + Processed(log[1..])
  }

  lemma {:induction false} TakenAppend(a: seq<LogEvent>, b: seq<LogEvent>)
    ensures Taken(a + b) == Taken(a) + Taken(b)
    decreases |a|
  {
    if a != [] {
      TakenAppend(a[1..], b);
      assert (a + b)[0] == a[0];
      assert (a + b)[1..] == a[1..] + b;
      var h := if a[0].JobProcessing? then [a[0].item] else [];
      assert Taken(a + b) == h + (Taken(a[1..]) + Taken(b));
      assert h + (Taken(a[1..]) + Taken(b)) == (h + Taken(a[1..])) + Taken(b);
    } else {
      assert a + b == b;
    }
  }

  lemma {:induction false} ProcessedAppend(a: seq<LogEvent>, b: seq<LogEvent>)
    ensures Processed(a + b) == Processed(a) + Processed(b)
    decreases |a|
  {
    if a != [] {
      ProcessedAppend(a[1..], b);
      assert (a + b)[0] == a[0];
      assert (a + b)[1..] == a[1..] + b;
      var h := if a[0].JobProcessed? then [a[0].item] else [];
      assert Processed(a + b) == h + (Processed(a[1..]) + Processed(b));
      assert h + (Processed(a[1..]) + Processed(b)) == (h + Processed(a[1..])) + Processed(b);
    } else {
      assert a + b == b;
    }
  }

  /** The store after applying `cs` one after another. Applying commands changes
      quantities only: no key appears or disappears and no other field moves. */
  function ApplyAll(store: map<Guid, Product>, cs: seq<Command>): (s: map<Guid, Product>)
    requires Keyed(store)
    ensures Keyed(s) && s.Keys == store.Keys
    ensures forall k :: k in store ==> SameExceptQuantity(store[k], s[k])
    decreases |cs|
  {
    if cs == [] then store else ApplyAll(Apply(store, cs[0]).store, cs[1..])
  }

  lemma {:induction false} ApplyAllAppend(store: map<Guid, Product>, a: seq<Command>, b: seq<Command>)
    requires Keyed(store)
    ensures ApplyAll(store, a + b) == ApplyAll(ApplyAll(store, a), b)
    decreases |a|
  {
    if a == [] {
      assert a + b == b;
    } else {
      assert (a + b)[0] == a[0] && (a + b)[1..] == a[1..] + b;
      ApplyAllAppend(Apply(store, a[0]).store, a[1..], b);
    }
  }

  /** A command that the service accepts and applies. */
  predicate Effective(c: Command) {
    c.id != EmptyGuid && c.quantity >= 0
  }

  /** Last write wins: the final quantity of a product is the quantity of the last
      valid command for it, and its other fields are those it had. */
  lemma {:induction false} LastWriteWins(store: map<Guid, Product>, cs: seq<Command>, j: int)
    requires Keyed(store) && 0 <= j < |cs| && cs[j].id in store && Effective(cs[j])
    requires forall i :: j < i < |cs| ==> cs[i].id != cs[j].id || !Effective(cs[i])
    ensures ApplyAll(store, cs)[cs[j].id] == store[cs[j].id].(quantity := cs[j].quantity)
    decreases |cs|
  {
    var next := Apply(store, cs[0]).store;
    if j == 0 {
      Untouched(next, cs[1..], cs[0].id);
    } else {
      assert forall i :: j - 1 < i < |cs[1..]| ==> cs[1..][i] == cs[i + 1];
      LastWriteWins(next, cs[1..], j - 1);
    }
  }

  /** Commands that never validly target `id` leave its product alone. */
  lemma {:induction false} Untouched(store: map<Guid, Product>, cs: seq<Command>, id: Guid)
    requires Keyed(store) && id in store
    requires forall i :: 0 <= i < |cs| ==> cs[i].id != id || !Effective(cs[i])
    ensures ApplyAll(store, cs)[id] == store[id]
    decreases |cs|
  {
    if cs != [] {
      assert forall i :: 0 <= i < |cs[1..]| ==> cs[1..][i] == cs[i + 1];
      Untouched(Apply(store, cs[0]).store, cs[1..], id);
    }
  }

  /** The service's own entries record no dequeue, completion or cancellation. */
  lemma {:induction false} ServiceLogQuiet(store: map<Guid, Product>, c: Command)
    requires Keyed(store)
    ensures var l := Apply(store, c).log;
      Taken(l) == [] && Processed(l) == [] && forall e :: e in l ==> !e.JobCancelled?
  {
    var l := Apply(store, c).log;
    assert l == [l[0]] && l[1..] == [];
  }

  lemma {:induction false} TakenSingle(e: LogEvent)
    ensures Taken([e]) == if e.JobProcessing? then [e.item] else []
  {
    assert [e][1..] == [];
  }

  lemma {:induction false} ProcessedSingle(e: LogEvent)
    ensures Processed([e]) == if e.JobProcessed? then [e.item] else []
  {
    assert [e][1..] == [];
  }

  /** The log of a completed job: its dequeue, the service's entries, its completion. */
  lemma {:induction false} CompletedLog(item: Command, mid: seq<LogEvent>)
    requires Taken(mid) == [] && Processed(mid) == [] && forall e :: e in mid ==> !e.JobCancelled?
    ensures var l := [JobProcessing(item)] + mid + [JobProcessed(item)];
      Taken(l) == [item] && Processed(l) == [item] && forall e :: e in l ==> !e.JobCancelled?
  {
    var first, last := JobProcessing(item), JobProcessed(item);
    TakenSingle(first);
    TakenSingle(last);
    TakenAppend([first], mid);
    TakenAppend([first] + mid, [last]);
    ProcessedSingle(first);
    ProcessedSingle(last);
    ProcessedAppend([first], mid);
    ProcessedAppend([first] + mid, [last]);
  }

  /** The log of a job taken and then abandoned, by a fault or by cancellation. */
  lemma {:induction false} AbandonedLog(item: Command, e: LogEvent)
    requires !e.JobProcessing? && !e.JobProcessed?
    ensures Taken([JobProcessing(item), e]) == [item] && Processed([JobProcessing(item), e]) == []
  {
    var first := JobProcessing(item);
    TakenSingle(first);
    TakenSingle(e);
    TakenAppend([first], [e]);
    ProcessedSingle(first);
    ProcessedSingle(e);
    ProcessedAppend([first], [e]);
    assert [first] + [e] == [first, e];
  }

  /** One iteration takes at most the front command of the queue. */
  lemma {:induction false} StepDequeues(pending: seq<Command>, store: map<Guid, Product>, s: Interference)
    requires Keyed(store)
    ensures var it := Step(pending, store, s); pending == Taken(it.log) + it.pending
  {
    if s == CancelledAtDequeue || pending == [] {
      TakenSingle(JobCancelled(None));
    } else {
      var item := pending[0];
      assert pending == [item] + pending[1..];
      match s
      case CancelledDuring =>
        AbandonedLog(item, JobCancelled(Some(item)));
      case Faults =>
        AbandonedLog(item, JobFailed);
      case Undisturbed =>
        ServiceLogQuiet(store, item);
        CompletedLog(item, Apply(store, item).log);
    }
  }

  /** One iteration applies exactly the command it completes. */
  lemma {:induction false} StepApplies(pending: seq<Command>, store: map<Guid, Product>, s: Interference)
    requires Keyed(store)
    ensures var it := Step(pending, store, s); it.store == ApplyAll(store, Processed(it.log))
  {
    if s == CancelledAtDequeue || pending == [] {
      ProcessedSingle(JobCancelled(None));
    } else {
      var item := pending[0];
      match s
      case CancelledDuring =>
        AbandonedLog(item, JobCancelled(Some(item)));
      case Faults =>
        AbandonedLog(item, JobFailed);
      case Undisturbed =>
        ServiceLogQuiet(store, item);
        CompletedLog(item, Apply(store, item).log);
        ApplyAllSingle(store, item);
    }
  }

  lemma {:induction false} ApplyAllSingle(store: map<Guid, Product>, c: Command)
    requires Keyed(store)
    ensures ApplyAll(store, [c]) == Apply(store, c).store
  {
    assert [c][1..] == [];
  }

  /** An iteration the token does not interrupt takes exactly the front command and
      does not stop the loop. */
  lemma {:induction false} StepTakesFront(pending: seq<Command>, store: map<Guid, Product>, s: Interference)
    requires Keyed(store) && pending != [] && (s == Undisturbed || s == Faults)
    ensures var it := Step(pending, store, s); !it.stop && Taken(it.log) == [pending[0]]
  {
    var item := pending[0];
    if s == Faults {
      AbandonedLog(item, JobFailed);
    } else {
      ServiceLogQuiet(store, item);
      CompletedLog(item, Apply(store, item).log);
    }
  }

  /** Such an iteration completes its command unless it faults. */
  lemma {:induction false} StepCompletes(pending: seq<Command>, store: map<Guid, Product>, s: Interference)
    requires Keyed(store) && pending != [] && (s == Undisturbed || s == Faults)
    ensures Processed(Step(pending, store, s).log) == if s == Undisturbed then [pending[0]] else []
  {
    var item := pending[0];
    if s == Faults {
      AbandonedLog(item, JobFailed);
    } else {
      ServiceLogQuiet(store, item);
      CompletedLog(item, Apply(store, item).log);
    }
  }

  /** Such an iteration records no cancellation. */
  lemma {:induction false} StepQuiet(pending: seq<Command>, store: map<Guid, Product>, s: Interference)
    requires Keyed(store) && pending != [] && (s == Undisturbed || s == Faults)
    ensures forall e :: e in Step(pending, store, s).log ==> !e.JobCancelled?
  {
    var item := pending[0];
    if s == Undisturbed {
      ServiceLogQuiet(store, item);
      CompletedLog(item, Apply(store, item).log);
    }
  }

  /** The first `n` commands of a queue are its front command and the next `n - 1`. */
  lemma {:induction false} FrontSlices<T>(q: seq<T>, n: int)
    requires 1 <= n <= |q|
    ensures q[1..][..n - 1] == q[..n][1..] && q[1..][n - 1..] == q[n..]
    ensures q[..n] == [q[0]] + q[..n][1..] && q[..n][0] == q[0]
  {
  }

  /** Ordering: the worker takes commands from the front of the queue, in queue
      order, and leaves the rest queued. */
  lemma {:induction false} DrainDequeuesInOrder(pending: seq<Command>, store: map<Guid, Product>, script: seq<Interference>)
    requires Keyed(store)
    ensures var r := Drain(pending, store, script); pending == Taken(r.log) + r.pending
    decreases |script|
  {
    if script != [] {
      var it := Step(pending, store, script[0]);
      StepDequeues(pending, store, script[0]);
      if !it.stop {
        DrainCons(pending, store, script);
        var rest := Drain(it.pending, it.store, script[1..]);
        DrainDequeuesInOrder(it.pending, it.store, script[1..]);
        TakenAppend(it.log, rest.log);
        Regroup(Taken(it.log), Taken(rest.log), rest.pending);
      }
    }
  }

  /** A run that does not stop in its first iteration is that iteration followed by
      the run over the rest of the script. */
  lemma {:induction false} DrainCons(pending: seq<Command>, store: map<Guid, Product>, script: seq<Interference>)
    requires Keyed(store) && script != [] && !Step(pending, store, script[0]).stop
    ensures var it := Step(pending, store, script[0]);
      var rest := Drain(it.pending, it.store, script[1..]);
      Drain(pending, store, script) == Run(rest.store, rest.pending, it.calls + rest.calls, it.log + rest.log)
  {
  }

  /** The store a run leaves is the result of applying exactly the commands it
      processed, in the order it processed them. */
  lemma {:induction false} DrainAppliesProcessed(pending: seq<Command>, store: map<Guid, Product>, script: seq<Interference>)
    requires Keyed(store)
    ensures var r := Drain(pending, store, script); r.store == ApplyAll(store, Processed(r.log))
    decreases |script|
  {
    if script != [] {
      var it := Step(pending, store, script[0]);
      StepApplies(pending, store, script[0]);
      if !it.stop {
        DrainCons(pending, store, script);
        var rest := Drain(it.pending, it.store, script[1..]);
        DrainAppliesProcessed(it.pending, it.store, script[1..]);
        ProcessedAppend(it.log, rest.log);
        ApplyAllAppend(store, Processed(it.log), Processed(rest.log));
      }
    }
  }

  /** The commands of `items` whose iteration ran undisturbed. */
  function Kept(items: seq<Command>, script: seq<Interference>): (kept: seq<Command>)
    requires |items| == |script|
    ensures |kept| <= |items|
  {
    if items == [] then []
    else (if script[0] == Undisturbed then [items[0]] else []) + Kept(items[1..], script[1..])
  }

  /** A script in which the stopping token is never cancelled before its end. */
  predicate Uncancelled(script: seq<Interference>) {
    forall i :: 0 <= i < |script| ==> script[i] == Undisturbed || script[i] == Faults
  }

  lemma {:induction false} UncancelledTail(script: seq<Interference>)
    requires script != [] && Uncancelled(script)
    ensures Uncancelled(script[1..])
  {
    forall i | 0 <= i < |script[1..]| ensures script[1..][i] == Undisturbed || script[1..][i] == Faults {
      assert script[1..][i] == script[i + 1];
    }
  }

  /** Fault isolation: when the token is only cancelled at the end and the queue
      holds a job for every iteration, every iteration takes one job, a faulting job
      is skipped, every other job is processed, and the loop never logs a
      cancellation. */
  lemma {:induction false} FaultIsolation(pending: seq<Command>, store: map<Guid, Product>, script: seq<Interference>)
    requires Keyed(store) && Uncancelled(script) && |script| <= |pending|
    ensures var r := Drain(pending, store, script);
      && Taken(r.log) == pending[..|script|]
      && r.pending == pending[|script|..]
      && Processed(r.log) == Kept(pending[..|script|], script)
      && forall e :: e in r.log ==> !e.JobCancelled?
  {
    UncancelledTakesEach(pending, store, script);
    UncancelledCompletesUndisturbed(pending, store, script);
    UncancelledNeverCancels(pending, store, script);
  }

  lemma {:induction false} UncancelledTakesEach(pending: seq<Command>, store: map<Guid, Product>, script: seq<Interference>)
    requires Keyed(store) && Uncancelled(script) && |script| <= |pending|
    ensures var r := Drain(pending, store, script);
      Taken(r.log) == pending[..|script|] && r.pending == pending[|script|..]
    decreases |script|
  {
    if script != [] {
      var it := Step(pending, store, script[0]);
      StepTakesFront(pending, store, script[0]);
      UncancelledTail(script);
      DrainCons(pending, store, script);
      var rest := Drain(it.pending, it.store, script[1..]);
      UncancelledTakesEach(it.pending, it.store, script[1..]);
      TakenAppend(it.log, rest.log);
      FrontSlices(pending, |script|);
      assert Taken(Drain(pending, store, script).log) == [pending[0]] + pending[1..][..|script| - 1];
    }
  }

  lemma {:induction false} UncancelledCompletesUndisturbed(pending: seq<Command>, store: map<Guid, Product>, script: seq<Interference>)
    requires Keyed(store) && Uncancelled(script) && |script| <= |pending|
    ensures Processed(Drain(pending, store, script).log) == Kept(pending[..|script|], script)
    decreases |script|
  {
    if script != [] {
      var it := Step(pending, store, script[0]);
      StepTakesFront(pending, store, script[0]);
      StepCompletes(pending, store, script[0]);
      UncancelledTail(script);
      DrainCons(pending, store, script);
      var rest := Drain(it.pending, it.store, script[1..]);
      UncancelledCompletesUndisturbed(it.pending, it.store, script[1..]);
      ProcessedAppend(it.log, rest.log);
      FrontSlices(pending, |script|);
    }
  }

  lemma {:induction false} UncancelledNeverCancels(pending: seq<Command>, store: map<Guid, Product>, script: seq<Interference>)
    requires Keyed(store) && Uncancelled(script) && |script| <= |pending|
    ensures forall e :: e in Drain(pending, store, script).log ==> !e.JobCancelled?
    decreases |script|
  {
    if script != [] {
      var it := Step(pending, store, script[0]);
      StepTakesFront(pending, store, script[0]);
      StepQuiet(pending, store, script[0]);
      UncancelledTail(script);
      DrainCons(pending, store, script);
      UncancelledNeverCancels(it.pending, it.store, script[1..]);
    }
  }

  /** Cancellation ends the loop: once the token is cancelled in iteration k, the
      iterations after it never run, so the store, queue, calls and log are those
      of the first k + 1 iterations, and no more than k + 1 jobs are ever taken
      from the queue. */
  lemma {:induction false} CancellationStops(pending: seq<Command>, store: map<Guid, Product>, script: seq<Interference>, k: int)
    requires Keyed(store) && 0 <= k < |script|
    requires script[k] == CancelledAtDequeue || script[k] == CancelledDuring
    ensures Drain(pending, store, script) == Drain(pending, store, script[..k + 1])
    ensures |pending| - |Drain(pending, store, script).pending| <= k + 1
    decreases k
  {
    var it := Step(pending, store, script[0]);
    assert script[..k + 1][0] == script[0];
    if !it.stop {
      assert script[1..][k - 1] == script[k];
      assert script[..k + 1][1..] == script[1..][..k];
      CancellationStops(it.pending, it.store, script[1..], k - 1);
    }
  }

  /** Capacity 2, the worker's side: given A (5 for product 1), B (7 for product 2)
      and C (9 for product 1) in that order, the worker completes A, B and C in that
      order, and product 1 ends with quantity 9. The queue's side is
      ProductUpdateQueue.CapacityTwoAdmission. */
  lemma {:induction false} CapacityTwoScenario(store: map<Guid, Product>)
    requires Keyed(store) && 1 in store && 2 in store
    ensures var r := Drain([Command(1, 5), Command(2, 7), Command(1, 9)], store, [Undisturbed, Undisturbed, Undisturbed]);
      && Processed(r.log) == [Command(1, 5), Command(2, 7), Command(1, 9)]
      && r.store[1].quantity == 9
      && r.store[2].quantity == 7
  {
    var cs := [Command(1, 5), Command(2, 7), Command(1, 9)];
    var script := [Undisturbed, Undisturbed, Undisturbed];
    UncancelledCompletesUndisturbed(cs, store, script);
    assert cs[..3] == cs;
    KeptAll(cs, script);
    DrainAppliesProcessed(cs, store, script);
    LastWritesOfScenario(store, cs);
  }

  lemma {:induction false} KeptAll(cs: seq<Command>, script: seq<Interference>)
    requires |cs| == |script| == 3 && script == [Undisturbed, Undisturbed, Undisturbed]
    ensures Kept(cs, script) == cs
  {
    assert cs[1..] == [cs[1], cs[2]] && script[1..] == [Undisturbed, Undisturbed];
    assert cs[1..][1..] == [cs[2]] && script[1..][1..] == [Undisturbed];
    assert Kept(cs[1..][1..], script[1..][1..]) == [cs[2]] by {
      assert cs[1..][1..][1..] == [] && script[1..][1..][1..] == [];
    }
    assert Kept(cs[1..], script[1..]) == [cs[1], cs[2]];
  }

  lemma {:induction false} LastWritesOfScenario(store: map<Guid, Product>, cs: seq<Command>)
    requires Keyed(store) && 1 in store && 2 in store
    requires cs == [Command(1, 5), Command(2, 7), Command(1, 9)]
    ensures ApplyAll(store, cs)[1].quantity == 9 && ApplyAll(store, cs)[2].quantity == 7
  {
    LastWriteWins(store, cs, 2);
    LastWriteWins(store, cs, 1);
  }

  /** The part of a run still to come: nothing once the loop has stopped. */
  function Remaining(stopped: bool, pending: seq<Command>, store: map<Guid, Product>, script: seq<Interference>): (r: Run)
    requires Keyed(store)
    ensures Keyed(r.store)
  {
    if stopped then Run(store, pending, [], []) else Drain(pending, store, script)
  }

  /** A run is its first iteration followed by the rest of the run. */
  lemma {:induction false} DrainUnfold(pending: seq<Command>, store: map<Guid, Product>, script: seq<Interference>)
    requires Keyed(store) && script != []
    ensures var it := Step(pending, store, script[0]);
      var rest := Remaining(it.stop, it.pending, it.store, script[1..]);
      Drain(pending, store, script) == Run(rest.store, rest.pending, it.calls + rest.calls, it.log + rest.log)
  {
    var it := Step(pending, store, script[0]);
    if it.stop {
      assert it.calls + [] == it.calls && it.log + [] == it.log;
    }
  }

  lemma {:induction false} Regroup<T>(a: seq<T>, b: seq<T>, c: seq<T>)
    ensures a + (b + c) == (a + b) + c
  {
  }

  class ProductUpdateBackgroundService {
    const queue: ProductUpdateQueue
    const repository: InMemoryRepository

    constructor (queue: ProductUpdateQueue, repository: InMemoryRepository)
      ensures this.queue == queue && this.repository == repository
    {
      this.queue := queue;
      this.repository := repository;
    }

    /** The body of the loop: the try block and its two catch clauses. */
    method ProcessNext(s: Interference) returns (entries: seq<LogEvent>, stop: bool)
      requires queue.Valid() && repository.Valid()
      modifies queue, repository
      ensures queue.Valid() && repository.Valid()
      ensures var it := Step(old(queue.buffer), old(repository.data), s);
        && queue.buffer == it.pending
        && repository.data == it.store
        && repository.calls == old(repository.calls) + it.calls
        && entries == it.log
        && stop == it.stop
    {
      var next := queue.DequeueAsync(s == CancelledAtDequeue);
      if next.Dequeued? {
        var item := next.item;
        entries := [JobProcessing(item)];
        if s == Faults {
          entries := entries + [JobFailed];
          stop := false;
        } else if s == CancelledDuring {
          entries := entries + [JobCancelled(Some(item))];
          stop := true;
        } else {
          var service := new ProductServices(repository);
          var logged := service.Update(item);
          entries := entries + logged + [JobProcessed(item)];
          stop := false;
        }
      } else {
        entries := [JobCancelled(None)];
        stop := true;
      }
    }

    method ExecuteAsync(script: seq<Interference>) returns (log: seq<LogEvent>)
      requires queue.Valid() && repository.Valid()
      modifies queue, repository
      ensures queue.Valid() && repository.Valid()
      ensures var r := Drain(old(queue.buffer), old(repository.data), script);
        && queue.buffer == r.pending
        && repository.data == r.store
        && repository.calls == old(repository.calls) + r.calls
        && log == [WorkerStarted] + r.log + [WorkerStopped]
    {
      log := [WorkerStarted];
      var i := 0;
      var stopped := false;
      while i < |script| && !stopped
        invariant 0 <= i <= |script|
        invariant queue.Valid() && repository.Valid()
        invariant var whole := Drain(old(queue.buffer), old(repository.data), script);
          var rest := Remaining(stopped, queue.buffer, repository.data, script[i..]);
          && rest.store == whole.store
          && rest.pending == whole.pending
          && old(repository.calls) + whole.calls == repository.calls + rest.calls
          && [WorkerStarted] + whole.log == log + rest.log
        decreases |script| - i
      {
        ghost var it := Step(queue.buffer, repository.data, script[i]);
        ghost var calls0, log0 := repository.calls, log;
        assert script[i..][0] == script[i] && script[i..][1..] == script[i + 1..];
        DrainUnfold(queue.buffer, repository.data, script[i..]);
        ghost var after := Remaining(it.stop, it.pending, it.store, script[i + 1..]);
        var entries, stop := ProcessNext(script[i]);
        log := log + entries;
        stopped := stop;
        i := i + 1;
        Regroup(calls0, it.calls, after.calls);
        Regroup(log0, it.log, after.log);
      }
      if i == |script| {
        assert script[i..] == [];
      }
      log := log + [WorkerStopped];
    }
  }
}
