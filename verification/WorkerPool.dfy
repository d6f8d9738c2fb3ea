/**
 The worker pool as an interleaving of producers, one dispatcher, a bounded channel and N workers.
 Every labelled step below is one critical section or one channel operation of the program.
 */
module WorkerPool {
  import opened Sequences
  import opened AppQueue

  /** Where the dispatch loop is: about to look at the list, waiting on the condition, or holding a taken item. */
  datatype Dispatcher = Awake | Parked | Hand(item: Item)

  datatype Worker = Idle | Running(item: Item)

  /** `enqueued` and `handed` record, in order, every value given to the queue and every item given to the handler. */
  datatype Pool = Pool(
    queue: Queue, dispatcher: Dispatcher, jobs: seq<Item>, workers: seq<Worker>,
    enqueued: seq<App>, handed: seq<Item>)

  datatype Step = Produce(app: App) | Take | Park | Send | Receive(w: nat) | Finish(w: nat)

  function Start(numWorkers: nat): Pool {
    Pool(EMPTY, Awake, [], seq(numWorkers, i => Idle), [], [])
  }

  predicate Enabled(p: Pool, step: Step) {
    match step
    case Produce(_) => true
    case Take => p.dispatcher.Awake? && p.queue.items != []
    case Park => p.dispatcher.Awake? && p.queue.items == []
    case Send => p.dispatcher.Hand? && |p.jobs| < |p.workers| * 2
    case Receive(w) => w < |p.workers| && p.workers[w].Idle? && p.jobs != []
    case Finish(w) => w < |p.workers| && p.workers[w].Running?
  }

  /** A signal wakes the dispatcher only if it is waiting at that moment. */
  function Signal(d: Dispatcher): Dispatcher {
    if d.Parked? then Awake else d
  }

  function Apply(p: Pool, step: Step): Pool
    requires Enabled(p, step)
  {
    match step
    case Produce(app) =>
      p.(queue := Enqueue(p.queue, app),
         dispatcher := if KeyOf(app) in p.queue.processing then p.dispatcher else Signal(p.dispatcher),
         enqueued := p.enqueued + [app])
    case Take => p.(queue := Dequeue(p.queue), dispatcher := Hand(p.queue.items[0]))
    case Park => p.(dispatcher := Parked)
    case Send => p.(dispatcher := Awake, jobs := p.jobs + [p.dispatcher.item])
    case Receive(w) =>
      p.(jobs := p.jobs[1..], workers := p.workers[w := Running(p.jobs[0])], handed := p.handed + [p.jobs[0]])
    case Finish(w) =>
      var key := p.workers[w].item.key;
      p.(queue := Done(p.queue, key), workers := p.workers[w := Idle],
         dispatcher := if key in p.queue.pending then Signal(p.dispatcher) else p.dispatcher)
  }

  predicate Run(p: Pool, steps: seq<Step>)
    decreases |steps|
  {
    steps == [] || (Enabled(p, steps[0]) && Run(Apply(p, steps[0]), steps[1..]))
  }

  function After(p: Pool, steps: seq<Step>): Pool
    requires Run(p, steps)
    decreases |steps|
  {
    if steps == [] then p else After(Apply(p, steps[0]), steps[1..])
  }

  // ---------------------------------------------------------------- who is being processed

  function KeysOf(items: seq<Item>): multiset<string> {
    if items == [] then multiset{} else multiset{items[0].key} + KeysOf(items[1..])
  }

  function InHand(d: Dispatcher): seq<Item> {
    if d.Hand? then [d.item] else []
  }

  function KeyOfWorker(w: Worker): multiset<string> {
    if w.Running? then multiset{w.item.key} else multiset{}
  }

  function RunningKeys(workers: seq<Worker>): multiset<string> {
    if workers == [] then multiset{} else KeyOfWorker(workers[0]) + RunningKeys(workers[1..])
  }

  /** Every key checked out of the queue, with multiplicity. */
  function Busy(p: Pool): multiset<string> {
    KeysOf(InHand(p.dispatcher)) + KeysOf(p.jobs) + RunningKeys(p.workers)
  }

  lemma {:induction false} KeysOfAppend(items: seq<Item>, item: Item)
    ensures KeysOf(items + [item]) == KeysOf(items) + multiset{item.key}
  {
    if items != [] {
      KeysOfAppend(items[1..], item);
      assert (items + [item])[1..] == items[1..] + [item];
    }
  }

  lemma {:induction false} RunningUpdate(workers: seq<Worker>, w: nat, worker: Worker)
    requires w < |workers|
    ensures RunningKeys(workers[w := worker]) + KeyOfWorker(workers[w])
            == RunningKeys(workers) + KeyOfWorker(worker)
  {
    var updated := workers[w := worker];
    if w == 0 {
      assert updated[1..] == workers[1..];
    } else {
      assert updated[1..] == workers[1..][w - 1 := worker];
      RunningUpdate(workers[1..], w - 1, worker);
      var first, rest, moved := KeyOfWorker(workers[0]), RunningKeys(workers[1..]), RunningKeys(updated[1..]);
      assert moved + KeyOfWorker(workers[w]) == rest + KeyOfWorker(worker);
      assert (first + moved) + KeyOfWorker(workers[w]) == first + (moved + KeyOfWorker(workers[w]));
    }
  }

  lemma {:induction false} RunningContains(workers: seq<Worker>, w: nat)
    requires w < |workers| && workers[w].Running?
    ensures workers[w].item.key in RunningKeys(workers)
  {
    if w > 0 {
      RunningContains(workers[1..], w - 1);
    }
  }

  lemma {:induction false} RunningTwice(workers: seq<Worker>, v: nat, w: nat)
    requires v < w < |workers| && workers[v].Running? && workers[w].Running?
    requires workers[v].item.key == workers[w].item.key
    ensures RunningKeys(workers)[workers[v].item.key] >= 2
  {
    if v == 0 {
      RunningContains(workers[1..], w - 1);
    } else {
      RunningTwice(workers[1..], v - 1, w - 1);
    }
  }

  // ---------------------------------------------------------------- what happened to each key

  function Mine(item: Item, key: string): seq<App> {
    if item.key == key then [item.value] else []
  }

  function ValuesFor(items: seq<Item>, key: string): seq<App> {
    if items == [] then [] else Mine(items[0], key) + ValuesFor(items[1..], key)
  }

  function HandFor(d: Dispatcher, key: string): seq<App> {
    if d.Hand? then Mine(d.item, key) else []
  }

  function AppsFor(apps: seq<App>, key: string): seq<App> {
    if apps == [] then []
    else
      var n := |apps| - 1;
      AppsFor(apps[..n], key) + (if KeyOf(apps[n]) == key then [apps[n]] else [])
  }

  function PendingFor(q: Queue, key: string): seq<App> {
    if key in q.pending then [q.pending[key]] else []
  }

  function Tail(q: Queue, key: string): seq<App> {
    ValuesFor(q.items, key) + PendingFor(q, key)
  }

  /** All that survives of the updates for one key: handed over, in the channel, in hand, listed, pending. */
  function Trail(p: Pool, key: string): seq<App> {
    ValuesFor(p.handed, key) + ValuesFor(p.jobs, key) + HandFor(p.dispatcher, key)
    + ValuesFor(p.queue.items, key) + PendingFor(p.queue, key)
  }

  lemma {:induction false} ValuesForAppend(items: seq<Item>, item: Item, key: string)
    ensures ValuesFor(items + [item], key) == ValuesFor(items, key) + Mine(item, key)
  {
    if items != [] {
      ValuesForAppend(items[1..], item, key);
      assert (items + [item])[1..] == items[1..] + [item];
      Assoc(Mine(items[0], key), ValuesFor(items[1..], key), Mine(item, key));
    }
  }

  lemma {:induction false} ValuesForAbsent(items: seq<Item>, key: string)
    requires forall i :: 0 <= i < |items| ==> items[i].key != key
    ensures ValuesFor(items, key) == []
  {
    if items != [] {
      ValuesForAbsent(items[1..], key);
    }
  }

  /** With one entry per key, the entry's value is all there is for that key. */
  lemma {:induction false} ValuesForUnique(items: seq<Item>, i: nat)
    requires i < |items|
    requires forall j :: 0 <= j < |items| && j != i ==> items[j].key != items[i].key
    ensures ValuesFor(items, items[i].key) == [items[i].value]
  {
    if i == 0 {
      ValuesForAbsent(items[1..], items[0].key);
    } else {
      ValuesForUnique(items[1..], i - 1);
    }
  }

  lemma {:induction false} ValuesForUpdateOther(items: seq<Item>, i: nat, item: Item, key: string)
    requires i < |items| && items[i].key == item.key != key
    ensures ValuesFor(items[i := item], key) == ValuesFor(items, key)
  {
    if i > 0 {
      assert items[i := item][1..] == items[1..][i - 1 := item];
      ValuesForUpdateOther(items[1..], i - 1, item, key);
    } else {
      assert items[0 := item][1..] == items[1..];
    }
  }

  /** The listed values after the item of a key was replaced, or added at the end. */
  lemma ListedAfter(q: Queue, app: App, key: string)
    requires WellFormed(q) && KeyOf(app) !in q.processing
    ensures var before, after := ValuesFor(q.items, key), ValuesFor(Enqueue(q, app).items, key);
            if key != KeyOf(app) then after == before else |before| <= 1 && after == [app]
  {
    var i, r := Position(q.items, KeyOf(app)), Enqueue(q, app);
    if i < |q.items| {
      if key == KeyOf(app) {
        ValuesForUnique(q.items, i);
        ValuesForUnique(r.items, i);
      } else {
        ValuesForUpdateOther(q.items, i, ItemOf(app), key);
      }
    } else {
      ValuesForAppend(q.items, ItemOf(app), key);
      if key == KeyOf(app) {
        ValuesForAbsent(q.items, key);
      }
    }
  }

  /** What an enqueue does to the not-yet-checked-out updates of a key: the newest replaces at most one older. */
  lemma EnqueueTail(q: Queue, app: App, key: string)
    requires WellFormed(q)
    ensures var before, after := Tail(q, key), Tail(Enqueue(q, app), key);
            if key != KeyOf(app) then after == before else |before| <= 1 && after == [app]
  {
    if KeyOf(app) !in q.processing {
      ListedAfter(q, app, key);
    } else if key == KeyOf(app) {
      ValuesForAbsent(q.items, key);
    }
  }

  lemma DoneTail(q: Queue, done: string, key: string)
    requires WellFormed(q)
    ensures Tail(Done(q, done), key) == Tail(q, key)
  {
    if done in q.processing && done in q.pending {
      var released := Queue(q.items, q.processing - {done}, q.pending - {done});
      EnqueueTail(released, q.pending[done], key);
      if key == done {
        ValuesForAbsent(q.items, key);
      }
    }
  }

  // ---------------------------------------------------------------- joint invariant

  /** The updates that survive are an in-order selection of those enqueued, and the newest is among them. */
  ghost predicate Tracks(trail: seq<App>, all: seq<App>) {
    && Subsequence(trail, all)
    && (all != [] ==> trail != [] && trail[|trail| - 1] == all[|all| - 1])
  }

  ghost predicate Inv(p: Pool) {
    && WellFormed(p.queue)
    && Accounted(p)
    && (p.dispatcher.Parked? ==> p.queue.items == [])
    && |p.jobs| <= |p.workers| * 2
    && (forall key :: Tracks(Trail(p, key), AppsFor(p.enqueued, key)))
  }

  lemma {:induction false} NothingRuns(n: nat)
    ensures RunningKeys(seq(n, i => Idle)) == multiset{}
  {
    if n > 0 {
      NothingRuns(n - 1);
      assert seq(n, i => Idle)[1..] == seq(n - 1, i => Idle);
    }
  }

  /** At first all workers are idle and the dispatcher is about to look at an empty list. */
  lemma StartInv(numWorkers: nat)
    ensures Inv(Start(numWorkers)) && Enabled(Start(numWorkers), Park)
    ensures |Start(numWorkers).workers| == numWorkers && RunningKeys(Start(numWorkers).workers) == multiset{}
  {
    NothingRuns(numWorkers);
  }

  lemma StepKeepsQueue(p: Pool, step: Step)
    requires Inv(p) && Enabled(p, step)
    ensures WellFormed(Apply(p, step).queue)
    ensures Apply(p, step).dispatcher.Parked? ==> Apply(p, step).queue.items == []
  {
    match step
    case Produce(app) => EnqueueWellFormed(p.queue, app);
    case Finish(w) => DoneWellFormed(p.queue, p.workers[w].item.key);
    case _ =>
  }

  lemma DoneProcessing(q: Queue, key: string)
    ensures Done(q, key).processing == q.processing - {key}
  {}

  lemma EnqueueProcessing(q: Queue, app: App)
    ensures Enqueue(q, app).processing == q.processing
  {}

  ghost predicate Accounted(p: Pool) {
    Busy(p) == multiset(p.queue.processing)
  }

  lemma TakeBusy(p: Pool)
    requires WellFormed(p.queue) && Accounted(p) && Enabled(p, Take)
    ensures Accounted(Apply(p, Take))
  {
    var next, key := Apply(p, Take), p.queue.items[0].key;
    assert key !in p.queue.processing;
    assert next.queue.processing == p.queue.processing + {key};
    assert multiset(p.queue.processing + {key}) == multiset(p.queue.processing) + multiset{key};
    assert KeysOf(InHand(next.dispatcher)) == multiset{key};
  }

  lemma SendBusy(p: Pool)
    requires Accounted(p) && Enabled(p, Send)
    ensures Accounted(Apply(p, Send))
  {
    KeysOfAppend(p.jobs, p.dispatcher.item);
    assert KeysOf(InHand(p.dispatcher)) == multiset{p.dispatcher.item.key};
  }

  lemma ReleaseOne(others: multiset<string>, running: multiset<string>, left: multiset<string>,
                   key: string, processing: set<string>)
    requires others + running == multiset(processing) && left + multiset{key} == running
    ensures key in processing && others + left == multiset(processing - {key})
  {
    assert key in running;
    assert key in others + running;
    assert others + left == multiset(processing) - multiset{key};
    assert multiset(processing) - multiset{key} == multiset(processing - {key});
  }

  lemma FinishBusy(p: Pool, w: nat)
    requires Accounted(p) && Enabled(p, Finish(w))
    ensures Accounted(Apply(p, Finish(w)))
    ensures p.workers[w].item.key in p.queue.processing
  {
    var next, key := Apply(p, Finish(w)), p.workers[w].item.key;
    RunningUpdate(p.workers, w, Idle);
    assert RunningKeys(next.workers) + multiset{key} == RunningKeys(p.workers);
    ReleaseOne(KeysOf(InHand(p.dispatcher)) + KeysOf(p.jobs), RunningKeys(p.workers), RunningKeys(next.workers),
               key, p.queue.processing);
    DoneProcessing(p.queue, key);
    assert InHand(next.dispatcher) == InHand(p.dispatcher);
  }

  lemma ReceiveBusy(p: Pool, w: nat)
    requires Accounted(p) && Enabled(p, Receive(w))
    ensures Accounted(Apply(p, Receive(w)))
  {
    var next, key := Apply(p, Receive(w)), p.jobs[0].key;
    RunningUpdate(p.workers, w, Running(p.jobs[0]));
    assert RunningKeys(next.workers) == RunningKeys(p.workers) + multiset{key};
    assert KeysOf(p.jobs) == multiset{key} + KeysOf(next.jobs);
  }

  lemma SameBusy(p: Pool, next: Pool)
    requires next.jobs == p.jobs && next.workers == p.workers && InHand(next.dispatcher) == InHand(p.dispatcher)
    ensures Busy(next) == Busy(p)
  {}

  lemma StepKeepsBusy(p: Pool, step: Step)
    requires WellFormed(p.queue) && Accounted(p) && Enabled(p, step)
    ensures Accounted(Apply(p, step))
  {
    match step
    case Produce(app) => EnqueueProcessing(p.queue, app); SameBusy(p, Apply(p, step));
    case Park => SameBusy(p, Apply(p, step));
    case Take => TakeBusy(p);
    case Send => SendBusy(p);
    case Receive(w) => ReceiveBusy(p, w);
    case Finish(w) => FinishBusy(p, w);
  }

  function Front(p: Pool, key: string): seq<App> {
    ValuesFor(p.handed, key) + ValuesFor(p.jobs, key) + HandFor(p.dispatcher, key)
  }

  lemma Regroup(a: seq<App>, b: seq<App>, c: seq<App>, d: seq<App>, e: seq<App>)
    ensures a + b + c + d + e == (a + b + c) + (d + e) == a + ((b + c) + (d + e)) == (a + b) + (c + d) + e
  {}

  lemma TrailParts(p: Pool, key: string)
    ensures Trail(p, key) == Front(p, key) + Tail(p.queue, key)
  {
    Regroup(ValuesFor(p.handed, key), ValuesFor(p.jobs, key), HandFor(p.dispatcher, key),
            ValuesFor(p.queue.items, key), PendingFor(p.queue, key));
  }

  lemma TakeTrail(p: Pool, key: string)
    requires Enabled(p, Take)
    ensures Trail(Apply(p, Take), key) == Trail(p, key)
  {
    var items, rest := p.queue.items, p.queue.items[1..];
    assert ValuesFor(items, key) == Mine(items[0], key) + ValuesFor(rest, key);
    Regroup(ValuesFor(p.handed, key), ValuesFor(p.jobs, key), Mine(items[0], key),
            ValuesFor(rest, key), PendingFor(p.queue, key));
    Regroup(ValuesFor(p.handed, key), ValuesFor(p.jobs, key), [], ValuesFor(items, key), PendingFor(p.queue, key));
    assert [] + ValuesFor(items, key) == ValuesFor(items, key);
  }

  lemma SendTrail(p: Pool, key: string)
    requires Enabled(p, Send)
    ensures Trail(Apply(p, Send), key) == Trail(p, key)
  {
    TrailParts(p, key);
    TrailParts(Apply(p, Send), key);
    ValuesForAppend(p.jobs, p.dispatcher.item, key);
    assert Front(Apply(p, Send), key) == Front(p, key);
  }

  lemma ShiftValues(handed: seq<Item>, jobs: seq<Item>, key: string)
    requires jobs != []
    ensures ValuesFor(handed + [jobs[0]], key) + ValuesFor(jobs[1..], key)
            == ValuesFor(handed, key) + ValuesFor(jobs, key)
  {
    ValuesForAppend(handed, jobs[0], key);
    assert ValuesFor(jobs, key) == Mine(jobs[0], key) + ValuesFor(jobs[1..], key);
    Assoc(ValuesFor(handed, key), Mine(jobs[0], key), ValuesFor(jobs[1..], key));
  }

  lemma ReceiveTrail(p: Pool, w: nat, key: string)
    requires Enabled(p, Receive(w))
    ensures Trail(Apply(p, Receive(w)), key) == Trail(p, key)
  {
    ShiftValues(p.handed, p.jobs, key);
  }

  lemma ProduceTrail(p: Pool, app: App, key: string)
    requires WellFormed(p.queue)
    ensures var trail, next := Trail(p, key), Trail(Apply(p, Produce(app)), key);
            if KeyOf(app) == key then Supersedes(next, trail, app) else next == trail
  {
    var next := Apply(p, Produce(app));
    TrailParts(p, key);
    TrailParts(next, key);
    EnqueueTail(p.queue, app, key);
    assert Front(next, key) == Front(p, key);
    if key == KeyOf(app) {
      SupersedeTail(Front(p, key), Tail(p.queue, key), app);
    }
  }

  lemma SupersedeTail(front: seq<App>, tail: seq<App>, app: App)
    requires |tail| <= 1
    ensures Supersedes(front + [app], front + tail, app)
  {
    assert tail == [] ==> front + tail == front;
    assert tail != [] ==> (front + tail)[..|front|] == front;
  }

  lemma FinishTrail(p: Pool, w: nat, key: string)
    requires WellFormed(p.queue) && Enabled(p, Finish(w))
    ensures Trail(Apply(p, Finish(w)), key) == Trail(p, key)
  {
    TrailParts(p, key);
    TrailParts(Apply(p, Finish(w)), key);
    DoneTail(p.queue, p.workers[w].item.key, key);
    assert Front(Apply(p, Finish(w)), key) == Front(p, key);
  }

  /** The newest value follows the others, or takes the place of the last one. */
  predicate Supersedes(next: seq<App>, trail: seq<App>, app: App) {
    next == trail + [app] || (trail != [] && next == trail[..|trail| - 1] + [app])
  }

  /** Only producers change the trail of a key, and only by making the newest value its last. */
  lemma StepTrail(p: Pool, step: Step, key: string)
    requires WellFormed(p.queue) && Enabled(p, step)
    ensures var trail, next := Trail(p, key), Trail(Apply(p, step), key);
            if step.Produce? && KeyOf(step.app) == key then Supersedes(next, trail, step.app) else next == trail
  {
    match step
    case Produce(app) => ProduceTrail(p, app, key);
    case Park =>
    case Take => TakeTrail(p, key);
    case Send => SendTrail(p, key);
    case Receive(w) => ReceiveTrail(p, w, key);
    case Finish(w) => FinishTrail(p, w, key);
  }

  lemma TracksNewer(trail: seq<App>, all: seq<App>, app: App, next: seq<App>)
    requires Tracks(trail, all)
    requires Supersedes(next, trail, app)
    ensures Tracks(next, all + [app])
  {
    if next == trail + [app] {
      ExtendBoth(trail, all, app);
    } else {
      DropLast(trail, all);
      ExtendBoth(trail[..|trail| - 1], all, app);
    }
  }

  lemma StepKeepsTracks(p: Pool, step: Step, key: string)
    requires WellFormed(p.queue) && Enabled(p, step)
    requires Tracks(Trail(p, key), AppsFor(p.enqueued, key))
    ensures Tracks(Trail(Apply(p, step), key), AppsFor(Apply(p, step).enqueued, key))
  {
    StepTrail(p, step, key);
    var next := Apply(p, step);
    if step.Produce? {
      assert next.enqueued[..|p.enqueued|] == p.enqueued;
      if KeyOf(step.app) == key {
        TracksNewer(Trail(p, key), AppsFor(p.enqueued, key), step.app, Trail(next, key));
      } else {
        assert AppsFor(next.enqueued, key) == AppsFor(p.enqueued, key);
      }
    }
  }

  lemma StepInv(p: Pool, step: Step)
    requires Inv(p) && Enabled(p, step)
    ensures Inv(Apply(p, step))
  {
    StepKeepsQueue(p, step);
    StepKeepsBusy(p, step);
    forall key
      ensures Tracks(Trail(Apply(p, step), key), AppsFor(Apply(p, step).enqueued, key))
    {
      StepKeepsTracks(p, step, key);
    }
  }

  lemma {:induction false} RunInv(p: Pool, steps: seq<Step>)
    requires Inv(p) && Run(p, steps)
    ensures Inv(After(p, steps))
    decreases |steps|
  {
    if steps != [] {
      StepInv(p, steps[0]);
      RunInv(Apply(p, steps[0]), steps[1..]);
    }
  }

  // ---------------------------------------------------------------- safety over whole runs

  /** No two workers ever run the same app, and `Done` is only ever called for a key being processed. */
  lemma MutualExclusion(numWorkers: nat, steps: seq<Step>)
    requires Run(Start(numWorkers), steps)
    ensures var p := After(Start(numWorkers), steps);
            && Busy(p) == multiset(p.queue.processing) && |p.jobs| <= numWorkers * 2
            && (forall i :: 0 <= i < |p.queue.items| ==> p.queue.items[i].key !in p.queue.processing)
            && (forall w :: 0 <= w < |p.workers| && p.workers[w].Running?
                  ==> p.workers[w].item.key in p.queue.processing)
            && (forall v, w :: 0 <= v < w < |p.workers| && p.workers[v].Running? && p.workers[w].Running?
                  ==> p.workers[v].item.key != p.workers[w].item.key)
  {
    var p := After(Start(numWorkers), steps);
    StartInv(numWorkers);
    RunInv(Start(numWorkers), steps);
    SameWorkers(Start(numWorkers), steps);
    forall w | 0 <= w < |p.workers| && p.workers[w].Running?
      ensures p.workers[w].item.key in p.queue.processing
    {
      FinishBusy(p, w);
    }
    forall v, w | 0 <= v < w < |p.workers| && p.workers[v].Running? && p.workers[w].Running?
      ensures p.workers[v].item.key != p.workers[w].item.key
    {
      assert Busy(p)[p.workers[v].item.key] <= 1;
      if p.workers[v].item.key == p.workers[w].item.key {
        RunningTwice(p.workers, v, w);
      }
    }
  }

  lemma {:induction false} SubsequencePrefix(a: seq<App>, b: seq<App>, all: seq<App>)
    requires Subsequence(a + b, all)
    ensures Subsequence(a, all)
    decreases |b|
  {
    if b == [] {
      assert a + b == a;
    } else {
      DropLast(a + b, all);
      assert (a + b)[..|a + b| - 1] == a + b[..|b| - 1];
      SubsequencePrefix(a, b[..|b| - 1], all);
    }
  }

  /** The newest update of a key is where the first applicable line says. */
  predicate NewestKept(p: Pool, key: string, newest: App) {
    var onTheWay := ValuesFor(p.jobs, key) + HandFor(p.dispatcher, key);
    var listed, seen := ValuesFor(p.queue.items, key), ValuesFor(p.handed, key);
    if key in p.queue.pending then p.queue.pending[key] == newest
    else if listed != [] then listed == [newest]
    else if onTheWay != [] then onTheWay == [newest]
    else seen != [] && seen[|seen| - 1] == newest
  }

  lemma TrailShowsNewest(p: Pool, key: string)
    requires Tracks(Trail(p, key), AppsFor(p.enqueued, key))
    requires |ValuesFor(p.queue.items, key)| <= 1 && |ValuesFor(p.jobs, key) + HandFor(p.dispatcher, key)| <= 1
    ensures var all := AppsFor(p.enqueued, key);
            && Subsequence(ValuesFor(p.handed, key), all)
            && (all != [] ==> NewestKept(p, key, all[|all| - 1]))
  {
    var h, listed, pending := ValuesFor(p.handed, key), ValuesFor(p.queue.items, key), PendingFor(p.queue, key);
    var onTheWay := ValuesFor(p.jobs, key) + HandFor(p.dispatcher, key);
    Regroup(h, ValuesFor(p.jobs, key), HandFor(p.dispatcher, key), listed, pending);
    LastOfTrail(h, onTheWay, listed, pending, AppsFor(p.enqueued, key));
  }

  /** The handler sees, for every key, an in-order selection of its updates, and the newest update is never lost. */
  lemma NoLostUpdate(numWorkers: nat, steps: seq<Step>, key: string)
    requires Run(Start(numWorkers), steps)
    ensures var p := After(Start(numWorkers), steps);
            var all := AppsFor(p.enqueued, key);
            && Subsequence(ValuesFor(p.handed, key), all)
            && (all != [] ==> NewestKept(p, key, all[|all| - 1]))
  {
    StartInv(numWorkers);
    RunInv(Start(numWorkers), steps);
    var p := After(Start(numWorkers), steps);
    AtMostOneListed(p.queue, key);
    AtMostOneBusy(p, key);
    TrailShowsNewest(p, key);
  }

  lemma LastOfConcat(a: seq<App>, b: seq<App>)
    ensures b == [] ==> a + b == a
    ensures b != [] ==> (a + b)[|a + b| - 1] == b[|b| - 1]
  {}

  lemma LastOfTrail(h: seq<App>, onTheWay: seq<App>, listed: seq<App>, pending: seq<App>, all: seq<App>)
    requires Tracks(h + (onTheWay + (listed + pending)), all)
    requires |onTheWay| <= 1 && |listed| <= 1 && |pending| <= 1
    ensures Subsequence(h, all)
    ensures all != [] ==>
              var newest := [all[|all| - 1]];
              if pending != [] then pending == newest
              else if listed != [] then listed == newest
              else if onTheWay != [] then onTheWay == newest
              else h != [] && h[|h| - 1] == newest[0]
  {
    SubsequencePrefix(h, onTheWay + (listed + pending), all);
    LastOfConcat(listed, pending);
    LastOfConcat(onTheWay, listed + pending);
    LastOfConcat(h, onTheWay + (listed + pending));
  }

  lemma AtMostOneListed(q: Queue, key: string)
    requires WellFormed(q)
    ensures |ValuesFor(q.items, key)| <= 1
  {
    var i := Position(q.items, key);
    if i < |q.items| {
      ValuesForUnique(q.items, i);
    } else {
      ValuesForAbsent(q.items, key);
    }
  }

  lemma {:induction false} CountedByKeys(items: seq<Item>, key: string)
    ensures |ValuesFor(items, key)| == KeysOf(items)[key]
  {
    if items != [] {
      CountedByKeys(items[1..], key);
    }
  }

  lemma AtMostOneBusy(p: Pool, key: string)
    requires Accounted(p)
    ensures |ValuesFor(p.jobs, key) + HandFor(p.dispatcher, key)| <= 1
  {
    CountedByKeys(p.jobs, key);
    assert KeysOf(InHand(p.dispatcher))[key] == |HandFor(p.dispatcher, key)|;
    assert multiset(p.queue.processing)[key] <= 1;
  }

  /** Everything taken from the list so far, in the order in which workers have got it or will get it. */
  function Pipeline(p: Pool): seq<Item> {
    p.handed + (p.jobs + InHand(p.dispatcher))
  }

  /** The items the dispatcher takes from the list during a run. */
  function TakenBy(p: Pool, steps: seq<Step>): seq<Item>
    requires Run(p, steps)
    decreases |steps|
  {
    if steps == [] then []
    else (if steps[0].Take? then [p.queue.items[0]] else []) + TakenBy(Apply(p, steps[0]), steps[1..])
  }

  lemma StepPipeline(p: Pool, step: Step)
    requires Enabled(p, step)
    ensures Pipeline(Apply(p, step)) == Pipeline(p) + if step.Take? then [p.queue.items[0]] else []
  {
    match step
    case Receive(w) => assert p.jobs == [p.jobs[0]] + p.jobs[1..];
    case _ =>
  }

  lemma {:induction false} RunPipeline(p: Pool, steps: seq<Step>)
    requires Run(p, steps)
    ensures Pipeline(After(p, steps)) == Pipeline(p) + TakenBy(p, steps)
    decreases |steps|
  {
    if steps == [] {
      assert Pipeline(p) + [] == Pipeline(p);
    } else {
      StepPipeline(p, steps[0]);
      RunPipeline(Apply(p, steps[0]), steps[1..]);
      Assoc(Pipeline(p), if steps[0].Take? then [p.queue.items[0]] else [], TakenBy(Apply(p, steps[0]), steps[1..]));
    }
  }

  /** Workers get the items in exactly the order in which they were taken from the list. */
  lemma HandedInOrderTaken(numWorkers: nat, steps: seq<Step>)
    requires Run(Start(numWorkers), steps)
    ensures var p, taken := After(Start(numWorkers), steps), TakenBy(Start(numWorkers), steps);
            && |p.handed| <= |taken| && taken[..|p.handed|] == p.handed
            && taken[|p.handed|..] == p.jobs + InHand(p.dispatcher)
  {
    RunPipeline(Start(numWorkers), steps);
    var p, taken := After(Start(numWorkers), steps), TakenBy(Start(numWorkers), steps);
    assert Pipeline(Start(numWorkers)) == [] && [] + taken == taken;
    assert taken == p.handed + (p.jobs + InHand(p.dispatcher));
  }

  /** The dispatcher is stuck with an item exactly while the channel holds two per worker. */
  lemma DispatcherBlockedIff(numWorkers: nat, steps: seq<Step>)
    requires Run(Start(numWorkers), steps) && After(Start(numWorkers), steps).dispatcher.Hand?
    ensures var p := After(Start(numWorkers), steps);
            !Enabled(p, Send) <==> |p.jobs| == 2 * numWorkers
  {
    StartInv(numWorkers);
    RunInv(Start(numWorkers), steps);
    SameWorkers(Start(numWorkers), steps);
  }

  /** A waiting dispatcher is woken by exactly those steps that give it something to take. */
  lemma WokenIffWork(p: Pool, step: Step)
    requires Inv(p) && p.dispatcher.Parked? && Enabled(p, step)
    ensures Apply(p, step).dispatcher.Parked? <==> Apply(p, step).queue.items == []
    ensures Apply(p, step).dispatcher.Parked? || Apply(p, step).dispatcher.Awake?
  {
    if step.Finish? {
      DoneCounts(p.queue, p.workers[step.w].item.key);
    }
  }

  // ---------------------------------------------------------------- draining

  function Load(workers: seq<Worker>): nat {
    if workers == [] then 0 else (if workers[0].Running? then 1 else 0) + Load(workers[1..])
  }

  /** Work left: the further an item is from being finished, the more it weighs; a wake-up costs less than a move. */
  function Weight(p: Pool): nat {
    10 * |p.queue.pending| + 8 * |p.queue.items| + 6 * |InHand(p.dispatcher)| + 4 * |p.jobs| + 2 * Load(p.workers)
    + if p.dispatcher.Awake? then 1 else 0
  }

  lemma {:induction false} LoadUpdate(workers: seq<Worker>, w: nat, worker: Worker)
    requires w < |workers|
    ensures Load(workers[w := worker]) == Load(workers) - (if workers[w].Running? then 1 else 0)
                                          + (if worker.Running? then 1 else 0)
  {
    var updated := workers[w := worker];
    if w == 0 {
      assert updated[1..] == workers[1..];
    } else {
      assert updated[1..] == workers[1..][w - 1 := worker];
      LoadUpdate(workers[1..], w - 1, worker);
    }
  }

  /** Without new events, every step of the pool uses up work. */
  lemma StepLowersWeight(p: Pool, step: Step)
    requires WellFormed(p.queue) && Enabled(p, step) && !step.Produce?
    ensures Weight(Apply(p, step)) < Weight(p)
  {
    match step
    case Finish(w) =>
      LoadUpdate(p.workers, w, Idle);
      DoneCounts(p.queue, p.workers[w].item.key);
    case Receive(w) => LoadUpdate(p.workers, w, Running(p.jobs[0]));
    case _ =>
  }

  lemma DoneCounts(q: Queue, key: string)
    requires WellFormed(q)
    ensures var r := Done(q, key);
            var moved := if key in q.pending then 1 else 0;
            |r.pending| == |q.pending| - moved && |r.items| == |q.items| + moved
  {
    if key in q.pending {
      assert (q.pending - {key}).Keys == q.pending.Keys - {key};
    }
  }

  /** Hence a run without new events is never longer than the weight it starts from. */
  lemma {:induction false} RunIsBounded(p: Pool, steps: seq<Step>)
    requires Inv(p) && Run(p, steps) && Unprovoked(steps)
    ensures |steps| + Weight(After(p, steps)) <= Weight(p)
    decreases |steps|
  {
    if steps != [] {
      StepLowersWeight(p, steps[0]);
      StepInv(p, steps[0]);
      RunIsBounded(Apply(p, steps[0]), steps[1..]);
    }
  }

  predicate Quiescent(p: Pool) {
    && p.queue.items == [] && p.queue.pending == map[] && p.queue.processing == {}
    && p.dispatcher.Parked? && p.jobs == []
    && forall w :: 0 <= w < |p.workers| ==> p.workers[w].Idle?
  }

  lemma {:induction false} AllIdle(workers: seq<Worker>)
    requires forall w :: 0 <= w < |workers| ==> workers[w].Idle?
    ensures RunningKeys(workers) == multiset{}
  {
    if workers != [] {
      AllIdle(workers[1..]);
    }
  }

  /** With a worker, nothing blocks before the pool is quiescent: neither the channel nor the condition can deadlock. */
  lemma NeverStuck(p: Pool) returns (step: Step)
    requires Inv(p) && |p.workers| > 0 && !Quiescent(p)
    ensures !step.Produce? && Enabled(p, step)
  {
    if w :| 0 <= w < |p.workers| && p.workers[w].Running? {
      step := Finish(w);
    } else if p.jobs != [] {
      step := Receive(0);
    } else if p.dispatcher.Hand? {
      step := Send;
    } else if p.dispatcher.Awake? {
      step := if p.queue.items != [] then Take else Park;
    } else {
      NothingLeft(p);
      assert false;
    }
  }

  lemma NothingLeft(p: Pool)
    requires Inv(p) && p.dispatcher.Parked? && p.jobs == []
    requires forall w :: 0 <= w < |p.workers| ==> p.workers[w].Idle?
    ensures Quiescent(p)
  {
    AllIdle(p.workers);
    assert Busy(p) == multiset{};
    assert forall k :: k in p.queue.processing ==> k in multiset(p.queue.processing);
  }

  predicate Unprovoked(steps: seq<Step>) {
    forall i :: 0 <= i < |steps| ==> !steps[i].Produce?
  }

  lemma RunFrom(p: Pool, step: Step, rest: seq<Step>)
    requires Enabled(p, step) && Run(Apply(p, step), rest)
    ensures Run(p, [step] + rest) && After(p, [step] + rest) == After(Apply(p, step), rest)
  {
    assert ([step] + rest)[1..] == rest;
  }

  lemma Progress(p: Pool) returns (step: Step)
    requires Inv(p) && |p.workers| > 0 && !Quiescent(p)
    ensures !step.Produce? && Enabled(p, step)
    ensures var next := Apply(p, step); Inv(next) && |next.workers| == |p.workers| && Weight(next) < Weight(p)
  {
    step := NeverStuck(p);
    StepInv(p, step);
    StepLowersWeight(p, step);
  }

  /** From every state the pool reaches quiescence on its own. */
  lemma {:induction false} Drains(p: Pool) returns (steps: seq<Step>)
    requires Inv(p) && |p.workers| > 0
    ensures Unprovoked(steps) && Run(p, steps) && Quiescent(After(p, steps))
    decreases Weight(p)
  {
    if Quiescent(p) {
      steps := [];
    } else {
      var step := Progress(p);
      var rest := Drains(Apply(p, step));
      RunFrom(p, step, rest);
      steps := [step] + rest;
    }
  }

  /** Once no step but a new event is possible, the handler's last call for each app carried its newest update. */
  lemma AllProcessedWhenBlocked(numWorkers: nat, steps: seq<Step>, key: string)
    requires numWorkers > 0 && Run(Start(numWorkers), steps)
    requires forall s :: Enabled(After(Start(numWorkers), steps), s) ==> s.Produce?
    ensures var p := After(Start(numWorkers), steps);
            var all, seen := AppsFor(p.enqueued, key), ValuesFor(p.handed, key);
            Quiescent(p) && (all != [] ==> seen != [] && seen[|seen| - 1] == all[|all| - 1])
  {
    var p := After(Start(numWorkers), steps);
    StartInv(numWorkers);
    RunInv(Start(numWorkers), steps);
    SameWorkers(Start(numWorkers), steps);
    if !Quiescent(p) {
      var step := NeverStuck(p);
      assert false;
    }
    NoLostUpdate(numWorkers, steps, key);
  }

  lemma {:induction false} SameWorkers(p: Pool, steps: seq<Step>)
    requires Run(p, steps)
    ensures |After(p, steps).workers| == |p.workers|
    decreases |steps|
  {
    if steps != [] {
      SameWorkers(Apply(p, steps[0]), steps[1..]);
    }
  }

  /** A worker is needed for this: a pool of none hands nothing over, however it runs. */
  lemma {:induction false} NoWorkersNoWork(p: Pool, steps: seq<Step>)
    requires |p.workers| == 0 && Run(p, steps)
    ensures After(p, steps).handed == p.handed
    decreases |steps|
  {
    if steps != [] {
      NoWorkersNoWork(Apply(p, steps[0]), steps[1..]);
    }
  }

  // ---------------------------------------------------------------- parallelism

  /** Applications with different names, one for each number. */
  function NumberedApp(i: nat): App {
    App("ns", seq(i, j => 'a'), "")
  }

  function NumberedKeys(k: nat): set<string> {
    set i | 0 <= i < k :: KeyOf(NumberedApp(i))
  }

  /** A pool of n of which the first k workers run applications 0 to k - 1, and nothing else is going on. */
  function BusyPool(n: nat, k: nat): Pool
    requires k <= n
  {
    Pool(Queue([], NumberedKeys(k), map[]), Awake, [],
         seq(n, i => if 0 <= i < k then Running(ItemOf(NumberedApp(i))) else Idle),
         seq(k, i requires 0 <= i < k => NumberedApp(i)), seq(k, i requires 0 <= i < k => ItemOf(NumberedApp(i))))
  }

  lemma NumberedKeysDiffer(i: nat, k: nat)
    requires k <= i
    ensures KeyOf(NumberedApp(i)) !in NumberedKeys(k)
  {
    assert |KeyOf(NumberedApp(i))| == 3 + i;
    assert forall j: nat :: |KeyOf(NumberedApp(j))| == 3 + j;
  }

  lemma OneMoreBusy(n: nat, k: nat)
    requires k < n
    ensures var steps := [Produce(NumberedApp(k)), Take, Send, Receive(k)];
            Run(BusyPool(n, k), steps) && After(BusyPool(n, k), steps) == BusyPool(n, k + 1)
  {
    var p0, app, key := BusyPool(n, k), NumberedApp(k), KeyOf(NumberedApp(k));
    NumberedKeysDiffer(k, k);
    var p1 := Apply(p0, Produce(app));
    var p2 := Apply(p1, Take);
    var p3 := Apply(p2, Send);
    var p4 := Apply(p3, Receive(k));
    assert NumberedKeys(k + 1) == NumberedKeys(k) + {key};
    assert p4.workers == BusyPool(n, k + 1).workers;
    assert p4.enqueued == BusyPool(n, k + 1).enqueued && p4.handed == BusyPool(n, k + 1).handed;
    RunFrom(p3, Receive(k), []);
    RunFrom(p2, Send, [Receive(k)]);
    RunFrom(p1, Take, [Send] + [Receive(k)]);
    RunFrom(p0, Produce(app), [Take] + ([Send] + [Receive(k)]));
    assert [Produce(app)] + ([Take] + ([Send] + ([Receive(k)] + []))) == [Produce(app), Take, Send, Receive(k)];
    assert [Receive(k)] + [] == [Receive(k)];
  }

  lemma {:induction false} RunConcat(p: Pool, a: seq<Step>, b: seq<Step>)
    requires Run(p, a) && Run(After(p, a), b)
    ensures Run(p, a + b) && After(p, a + b) == After(After(p, a), b)
    decreases |a|
  {
    if a == [] {
      assert a + b == b;
    } else {
      assert (a + b)[1..] == a[1..] + b;
      RunConcat(Apply(p, a[0]), a[1..], b);
    }
  }

  lemma {:induction false} FillWorkers(n: nat, k: nat) returns (steps: seq<Step>)
    requires k <= n
    ensures Run(BusyPool(n, 0), steps) && After(BusyPool(n, 0), steps) == BusyPool(n, k)
  {
    if k == 0 {
      steps := [];
    } else {
      var before := FillWorkers(n, k - 1);
      OneMoreBusy(n, k - 1);
      var more := [Produce(NumberedApp(k - 1)), Take, Send, Receive(k - 1)];
      RunConcat(BusyPool(n, 0), before, more);
      steps := before + more;
    }
  }

  /** A pool can have all its workers running at once, each on its own application. */
  lemma AllWorkersBusy(numWorkers: nat) returns (steps: seq<Step>)
    ensures Run(Start(numWorkers), steps)
    ensures var p := After(Start(numWorkers), steps);
            |p.workers| == numWorkers && forall w :: 0 <= w < numWorkers ==> p.workers[w].Running?
  {
    assert Start(numWorkers) == BusyPool(numWorkers, 0);
    steps := FillWorkers(numWorkers, numWorkers);
  }

  /** Nobody waits needlessly: who has something to do can do it, in any state. */
  lemma EachMayMove(p: Pool, app: App)
    ensures Enabled(p, Produce(app))
    ensures p.dispatcher.Awake? ==> Enabled(p, if p.queue.items == [] then Park else Take)
    ensures forall w :: 0 <= w < |p.workers| ==>
              if p.workers[w].Idle? then p.jobs != [] ==> Enabled(p, Receive(w)) else Enabled(p, Finish(w))
  {}
}
