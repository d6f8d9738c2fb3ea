/** One pass of the lock's retry loop and one close, as functions of the state kept per checkout path. */
module PathLock {
  import opened Wrappers

  datatype PathState = PathState(revision: string, processCount: int, initCloser: Option<nat>, allowConcurrent: bool)

  const FREE := PathState("", 0, None, false)

  /** What `init` would do if called: check the revision out and give a closer, or fail. */
  datatype Init = Opened(closer: nat) | InitFailed

  datatype Attempt = Acquired | Failed | MustWait

  function TryLock(s: PathState, revision: string, allowConcurrent: bool, init: Init): (PathState, Attempt) {
    if s.revision == "" then
      match init
      case InitFailed => (s, Failed)
      case Opened(closer) => (PathState(revision, 1, Some(closer), allowConcurrent), Acquired)
    else if s.revision == revision && s.allowConcurrent && allowConcurrent then
      (s.(processCount := s.processCount + 1), Acquired)
    else
      (s, MustWait)
  }

  /** The second component says whether this was the last holder, who closes the checkout and wakes the others. */
  function Release(s: PathState): (PathState, bool) {
    if s.processCount - 1 == 0 then (s.(processCount := 0, revision := ""), true)
    else (s.(processCount := s.processCount - 1), false)
  }
}

/** The lock object: one state object per path, shared by every caller of that path. */
module RepositoryLock {
  import opened Wrappers
  import opened PathLock

  class RepositoryState {
    var revision: string
    var initCloser: Option<nat>
    var processCount: int
    var allowConcurrent: bool

    constructor ()
      ensures Value() == FREE
    {
      revision, initCloser, processCount, allowConcurrent := "", None, 0, false;
    }

    ghost function Value(): PathState
      reads this
    {
      PathState(revision, processCount, initCloser, allowConcurrent)
    }

    /** One pass of the loop, with the state's mutex held. */
    method TryLock(rev: string, concurrent: bool, init: Init) returns (r: Attempt)
      modifies this
      ensures (Value(), r) == PathLock.TryLock(old(Value()), rev, concurrent, init)
    {
      if revision == "" {
        if init.InitFailed? {
          return Failed;
        }
        initCloser := Some(init.closer);
        revision := rev;
        processCount := 1;
        allowConcurrent := concurrent;
        return Acquired;
      } else if revision == rev && allowConcurrent && concurrent {
        processCount := processCount + 1;
        return Acquired;
      }
      r := MustWait;
    }

    method Release() returns (notify: bool)
      modifies this
      ensures (Value(), notify) == PathLock.Release(old(Value()))
    {
      notify := false;
      processCount := processCount - 1;
      if processCount == 0 {
        notify := true;
        revision := "";
      }
    }
  }

  class RepositoryLocks {
    var stateByKey: map<string, RepositoryState>

    ghost predicate Valid()
      reads this
    {
      forall p, q :: p in stateByKey && q in stateByKey && p != q ==> stateByKey[p] != stateByKey[q]
    }

    ghost function StateOf(path: string): PathState
      reads this, if path in stateByKey then {stateByKey[path]} else {}
    {
      if path in stateByKey then stateByKey[path].Value() else FREE
    }

    constructor ()
      ensures Valid() && stateByKey == map[]
    {
      stateByKey := map[];
    }

    /** Find or create the state of a path; no path's lock state changes. */
    method StateFor(path: string) returns (state: RepositoryState)
      requires Valid()
      modifies this
      ensures Valid() && path in stateByKey && stateByKey[path] == state
      ensures stateByKey.Keys == old(stateByKey.Keys) + {path}
      ensures forall p :: p in old(stateByKey) ==> stateByKey[p] == old(stateByKey)[p]
      ensures path !in old(stateByKey) ==> fresh(state)
      ensures state.Value() == old(StateOf(path))
    {
      if path in stateByKey {
        return stateByKey[path];
      }
      state := new RepositoryState();
      stateByKey := stateByKey[path := state];
    }

    /** A lock attempt acts on its own path only. */
    method Attempt(path: string, revision: string, concurrent: bool, init: Init) returns (r: Attempt)
      requires Valid()
      modifies this, if path in stateByKey then {stateByKey[path]} else {}
      ensures Valid()
      ensures (StateOf(path), r) == PathLock.TryLock(old(StateOf(path)), revision, concurrent, init)
      ensures forall p :: p in old(stateByKey) && p != path ==> p in stateByKey && StateOf(p) == old(StateOf(p))
    {
      var state := StateFor(path);
      r := state.TryLock(revision, concurrent, init);
    }

    /** So does a close; closers exist only for paths that have a state. */
    method Close(path: string) returns (notify: bool)
      requires Valid() && path in stateByKey
      modifies stateByKey[path]
      ensures Valid() && stateByKey == old(stateByKey)
      ensures (StateOf(path), notify) == PathLock.Release(old(StateOf(path)))
      ensures forall p :: p in stateByKey && p != path ==> StateOf(p) == old(StateOf(p))
    {
      notify := stateByKey[path].Release();
    }
  }
}

/**
 Every interleaving of callers and closers on one path. A closer unlocks before it broadcasts, so between the
 two other callers may already have taken the path.
 */
module LockProtocol {
  import opened Wrappers
  import opened PathLock

  datatype Caller =
    | Checking(revision: string, concurrent: bool)
    | Parked(revision: string, concurrent: bool)
    | Holding(revision: string, concurrent: bool)
    | Notifying

  /** Successful `init` calls and closes of what they opened, in order. */
  datatype Event = Init(closer: nat) | Close(closer: nat)

  datatype System = System(state: PathState, callers: map<nat, Caller>, log: seq<Event>)

  datatype Step =
    | Arrive(c: nat, revision: string, concurrent: bool)
    | Try(c: nat, init: PathLock.Init)
    | CloseLock(c: nat)
    | Broadcast(c: nat)

  const START := System(FREE, map[], [])

  predicate Enabled(s: System, step: Step) {
    match step
    case Arrive(c, _, _) => c !in s.callers
    case Try(c, _) => c in s.callers && s.callers[c].Checking?
    case CloseLock(c) => c in s.callers && s.callers[c].Holding?
    case Broadcast(c) => c in s.callers && s.callers[c].Notifying?
  }

  function Wake(caller: Caller): Caller {
    if caller.Parked? then Checking(caller.revision, caller.concurrent) else caller
  }

  function Apply(s: System, step: Step): System
    requires Enabled(s, step)
  {
    match step
    case Arrive(c, revision, concurrent) => s.(callers := s.callers[c := Checking(revision, concurrent)])
    case Try(c, init) =>
      var me := s.callers[c];
      var (state, result) := TryLock(s.state, me.revision, me.concurrent, init);
      (match result
       case Acquired =>
         System(state, s.callers[c := Holding(me.revision, me.concurrent)],
                if s.state.revision == "" then s.log + [Init(init.closer)] else s.log)
       case Failed => s.(state := state, callers := s.callers - {c})
       case MustWait => s.(state := state, callers := s.callers[c := Parked(me.revision, me.concurrent)]))
    case CloseLock(c) =>
      var (state, notify) := Release(s.state);
      if notify then
        System(state, s.callers[c := Notifying],
               if s.state.initCloser.Some? then s.log + [Close(s.state.initCloser.value)] else s.log)
      else
        System(state, s.callers - {c}, s.log)
    case Broadcast(c) =>
      s.(callers := map d | d in s.callers && d != c :: Wake(s.callers[d]))
  }

  predicate Run(s: System, steps: seq<Step>)
    decreases |steps|
  {
    steps == [] || (Enabled(s, steps[0]) && Run(Apply(s, steps[0]), steps[1..]))
  }

  function After(s: System, steps: seq<Step>): System
    requires Run(s, steps)
    decreases |steps|
  {
    if steps == [] then s else After(Apply(s, steps[0]), steps[1..])
  }

  // ---------------------------------------------------------------- invariants

  function Holders(callers: map<nat, Caller>): set<nat> {
    set c | c in callers && callers[c].Holding?
  }

  /** The closer of the checkout that is open according to the log. */
  function OpenCheckout(log: seq<Event>): Option<nat> {
    if log == [] then None
    else match log[|log| - 1] case Init(c) => Some(c) case Close(_) => None
  }

  /** Opens and closes strictly alternate, and each close is of the checkout opened before it. */
  predicate Alternating(log: seq<Event>) {
    log == [] ||
    (var n := |log| - 1;
     && Alternating(log[..n])
     && match log[n]
        case Init(_) => OpenCheckout(log[..n]) == None
        case Close(c) => OpenCheckout(log[..n]) == Some(c))
  }

  /** The count is the number of holders, who all asked for the checked-out revision with the same concurrency wish. */
  ghost predicate Consistent(s: System) {
    var holders := Holders(s.callers);
    && s.state.processCount == |holders|
    && (s.state.revision == "" <==> holders == {})
    && (forall c :: c in holders ==>
          s.callers[c].revision == s.state.revision && s.callers[c].concurrent == s.state.allowConcurrent)
    && (|holders| > 1 ==> s.state.allowConcurrent)
  }

  /** A parked caller is never forgotten: the path is held, or somebody still owes a broadcast. */
  ghost predicate NoLostWakeup(s: System) {
    (exists c :: c in s.callers && s.callers[c].Parked?) ==>
      Holders(s.callers) != {} || exists d :: d in s.callers && s.callers[d].Notifying?
  }

  ghost predicate Logged(s: System) {
    && Alternating(s.log)
    && OpenCheckout(s.log) == (if s.state.revision == "" then None else s.state.initCloser)
    && (s.state.revision != "" ==> s.state.initCloser.Some?)
  }

  ghost predicate Named(s: System) {
    forall c :: c in s.callers && !s.callers[c].Notifying? ==> s.callers[c].revision != ""
  }

  ghost predicate Inv(s: System) {
    Consistent(s) && NoLostWakeup(s) && Logged(s) && Named(s)
  }

  predicate NamesRevision(step: Step) {
    step.Arrive? ==> step.revision != ""
  }

  lemma AppendLog(log: seq<Event>, e: Event)
    ensures Alternating(log + [e]) <==>
              Alternating(log) && OpenCheckout(log) == (match e case Init(_) => None case Close(c) => Some(c))
    ensures OpenCheckout(log + [e]) == match e case Init(c) => Some(c) case Close(_) => None
  {
    assert (log + [e])[..|log|] == log;
  }

  lemma ArriveInv(s: System, step: Step)
    requires Inv(s) && step.Arrive? && Enabled(s, step) && NamesRevision(step)
    ensures Inv(Apply(s, step))
  {
    var next := Apply(s, step);
    assert Holders(next.callers) == Holders(s.callers);
    if d :| d in s.callers && s.callers[d].Notifying? {
      assert next.callers[d].Notifying?;
    }
    assert forall c :: c in next.callers && next.callers[c].Parked? ==> c in s.callers && s.callers[c].Parked?;
  }

  lemma TryInv(s: System, step: Step)
    requires Inv(s) && step.Try? && Enabled(s, step)
    ensures Inv(Apply(s, step))
  {
    var next, c, h := Apply(s, step), step.c, Holders(s.callers);
    var result := TryLock(s.state, s.callers[c].revision, s.callers[c].concurrent, step.init).1;
    match result
    case Acquired =>
      assert Holders(next.callers) == h + {c};
      if s.state.revision == "" {
        AppendLog(s.log, Init(step.init.closer));
      }
    case Failed =>
      assert Holders(next.callers) == h;
      if d :| d in s.callers && s.callers[d].Notifying? {
        assert next.callers[d].Notifying?;
      }
      assert forall d :: d in next.callers && next.callers[d].Parked? ==> d in s.callers && s.callers[d].Parked?;
    case MustWait =>
      assert Holders(next.callers) == h;
  }

  lemma CloseInv(s: System, step: Step)
    requires Inv(s) && step.CloseLock? && Enabled(s, step)
    ensures Inv(Apply(s, step))
  {
    var next, c, h := Apply(s, step), step.c, Holders(s.callers);
    assert c in h && |h - {c}| == |h| - 1;
    assert Holders(next.callers) == h - {c};
    if |h| == 1 {
      assert h - {c} == {};
      AppendLog(s.log, Close(s.state.initCloser.value));
      assert next.callers[c].Notifying?;
    } else {
      assert h - {c} != {};
    }
  }

  lemma BroadcastInv(s: System, step: Step)
    requires Inv(s) && step.Broadcast? && Enabled(s, step)
    ensures Inv(Apply(s, step))
  {
    var next := Apply(s, step);
    assert Holders(next.callers) == Holders(s.callers);
  }

  lemma StepInv(s: System, step: Step)
    requires Inv(s) && Enabled(s, step) && NamesRevision(step)
    ensures Inv(Apply(s, step))
  {
    match step
    case Arrive(_, _, _) => ArriveInv(s, step);
    case Try(_, _) => TryInv(s, step);
    case CloseLock(_) => CloseInv(s, step);
    case Broadcast(_) => BroadcastInv(s, step);
  }

  predicate NamesRevisions(steps: seq<Step>) {
    forall i :: 0 <= i < |steps| ==> NamesRevision(steps[i])
  }

  lemma {:induction false} RunInv(s: System, steps: seq<Step>)
    requires Inv(s) && Run(s, steps) && NamesRevisions(steps)
    ensures Inv(After(s, steps))
    decreases |steps|
  {
    if steps != [] {
      StepInv(s, steps[0]);
      RunInv(Apply(s, steps[0]), steps[1..]);
    }
  }

  // ---------------------------------------------------------------- safety of every run

  /** What the lock promises its holders. */
  ghost predicate Exclusive(s: System) {
    && (forall c :: c in Holders(s.callers) ==> s.callers[c].revision == s.state.revision)
    && (forall c, d :: c in Holders(s.callers) && d in Holders(s.callers) && c != d ==> s.callers[c].concurrent)
  }

  /** All revisions passed to the lock in this run come from `revisions`. */
  predicate Uses(steps: seq<Step>, revisions: set<string>) {
    forall i :: 0 <= i < |steps| ==> (steps[i].Arrive? ==> steps[i].revision in revisions)
  }

  lemma {:induction false} HoldersShare(s: System)
    requires Consistent(s)
    ensures Exclusive(s)
  {
    forall c, d | c in Holders(s.callers) && d in Holders(s.callers) && c != d
      ensures s.callers[c].concurrent
    {
      assert Holders(s.callers) == {c, d} + (Holders(s.callers) - {c, d});
      assert |{c, d}| == 2;
    }
  }

  /**
   Holders always share one revision, and one that refuses concurrency is alone, in every run of callers drawing
   on a set of revisions exactly when the empty revision is not in it.
   */
  lemma ExclusiveIffNamed(revisions: set<string>)
    ensures (forall steps: seq<Step> :: Run(START, steps) && Uses(steps, revisions) ==> Exclusive(After(START, steps)))
            <==> "" !in revisions
  {
    if "" in revisions {
      EmptyRevisionBreaksExclusion();
      var steps := [Arrive(0, "", false), Try(0, Opened(0)), Arrive(1, "", false), Try(1, Opened(1))];
      assert Uses(steps, revisions);
    } else {
      forall steps: seq<Step> | Run(START, steps) && Uses(steps, revisions)
        ensures Exclusive(After(START, steps))
      {
        assert NamesRevisions(steps);
        RunInv(START, steps);
        HoldersShare(After(START, steps));
      }
    }
  }

  /** Two callers asking for the empty revision both get the path, each having refused company. */
  lemma EmptyRevisionBreaksExclusion()
    ensures var steps := [Arrive(0, "", false), Try(0, Opened(0)), Arrive(1, "", false), Try(1, Opened(1))];
            Run(START, steps) && !Exclusive(After(START, steps))
  {
    var s1 := Apply(START, Arrive(0, "", false));
    var s2 := Apply(s1, Try(0, Opened(0)));
    var s3 := Apply(s2, Arrive(1, "", false));
    var s4 := Apply(s3, Try(1, Opened(1)));
    var t4 := [Try(1, Opened(1))];
    var t3 := [Arrive(1, "", false)] + t4;
    var t2 := [Try(0, Opened(0))] + t3;
    var steps := [Arrive(0, "", false), Try(0, Opened(0)), Arrive(1, "", false), Try(1, Opened(1))];
    assert steps[1..] == t2 && t2[1..] == t3 && t3[1..] == t4 && t4[1..] == [];
    assert Run(s4, []) && Run(s3, t4) && Run(s2, t3) && Run(s1, t2) && Run(START, steps);
    assert After(START, steps) == After(s1, t2) == After(s2, t3) == After(s3, t4) == s4;
    assert 0 in Holders(s4.callers) && 1 in Holders(s4.callers);
  }

  lemma HeldStep(s: System, step: Step, c: nat)
    requires Inv(s) && c in Holders(s.callers) && Enabled(s, step) && step != CloseLock(c)
    ensures var t := Apply(s, step);
            && c in Holders(t.callers) && t.callers[c] == s.callers[c]
            && t.state.revision == s.state.revision && t.state.initCloser == s.state.initCloser && t.log == s.log
  {
    if step.CloseLock? {
      assert {c, step.c} <= Holders(s.callers) && |{c, step.c}| == 2;
      assert Holders(s.callers) == {c, step.c} + (Holders(s.callers) - {c, step.c});
    }
  }

  /** Until a holder closes, nothing anyone does changes the checkout under it. */
  lemma {:induction false} CheckoutFixedWhileHeld(s: System, steps: seq<Step>, c: nat)
    requires Inv(s) && c in Holders(s.callers)
    requires Run(s, steps) && NamesRevisions(steps) && CloseLock(c) !in steps
    ensures var t := After(s, steps);
            && c in Holders(t.callers) && t.callers[c] == s.callers[c]
            && t.state.revision == s.state.revision == s.callers[c].revision
            && t.state.initCloser == s.state.initCloser && t.log == s.log
    decreases |steps|
  {
    if steps != [] {
      HeldStep(s, steps[0], c);
      StepInv(s, steps[0]);
      CheckoutFixedWhileHeld(Apply(s, steps[0]), steps[1..], c);
    }
  }

  /**
   In every run: opens and closes alternate, the count is the number of unclosed holders, the revision is empty
   exactly when there is none, and parked callers always have a holder or a pending broadcast to wake them.
   */
  lemma LockAccounting(steps: seq<Step>)
    requires Run(START, steps) && NamesRevisions(steps)
    ensures var s := After(START, steps);
            && Alternating(s.log)
            && s.state.processCount == |Holders(s.callers)|
            && (s.state.revision == "" <==> s.state.processCount == 0)
            && (OpenCheckout(s.log).Some? <==> s.state.processCount > 0)
            && NoLostWakeup(s)
  {
    RunInv(START, steps);
  }

  /** Whoever is left can move: no reachable state has only parked callers. */
  lemma NoDeadlock(steps: seq<Step>) returns (step: Step)
    requires Run(START, steps) && NamesRevisions(steps) && After(START, steps).callers != map[]
    ensures !step.Arrive? && Enabled(After(START, steps), step)
  {
    RunInv(START, steps);
    var s := After(START, steps);
    var c :| c in s.callers;
    match s.callers[c]
    case Checking(_, _) => step := Try(c, InitFailed);
    case Holding(_, _) => step := CloseLock(c);
    case Notifying => step := Broadcast(c);
    case Parked(_, _) =>
      if h :| h in Holders(s.callers) {
        step := CloseLock(h);
      } else {
        var d :| d in s.callers && s.callers[d].Notifying?;
        step := Broadcast(d);
      }
  }

  // ---------------------------------------------------------------- every caller is served

  function CheckingOf(callers: map<nat, Caller>): set<nat> {
    set c | c in callers && callers[c].Checking?
  }

  function NotifyingOf(callers: map<nat, Caller>): set<nat> {
    set c | c in callers && callers[c].Notifying?
  }

  /** How far the callers still are from leaving, apart from their number. */
  function Distance(callers: map<nat, Caller>): nat {
    3 * |CheckingOf(callers)| + 2 * |Holders(callers)| + |NotifyingOf(callers)|
  }

  /** A caller that leaves outweighs waking all the others. */
  function Weight(callers: map<nat, Caller>): nat {
    4 * |callers| * |callers| + Distance(callers)
  }

  lemma DistanceBound(callers: map<nat, Caller>)
    ensures Distance(callers) <= 3 * |callers|
  {
    var a, b, c := CheckingOf(callers), Holders(callers), NotifyingOf(callers);
    assert a !! b && a !! c && b !! c && a + b + c <= callers.Keys;
    SubsetSize(a + b + c, callers.Keys);
    assert |a + b| == |a| + |b| && |a + b + c| == |a + b| + |c|;
  }

  lemma SubsetSize(a: set<nat>, b: set<nat>)
    requires a <= b
    ensures |a| <= |b|
  {
    assert b == a + (b - a);
  }

  lemma FewerCallers(before: map<nat, Caller>, after: map<nat, Caller>, c: nat)
    requires c in before && after.Keys == before.Keys - {c}
    ensures Weight(after) < Weight(before)
  {
    DistanceBound(after);
    var n := |after.Keys|;
    assert |before| == |before.Keys| == n + 1;
    assert 4 * (n + 1) * (n + 1) == 4 * n * n + 8 * n + 4;
  }

  lemma Regrouped(before: set<nat>, after: set<nat>, c: nat)
    requires before - {c} == after - {c}
    ensures |after| == |before| - (if c in before then 1 else 0) + (if c in after then 1 else 0)
  {
    assert before == (if c in before then {c} else {}) + (before - {c});
    assert after == (if c in after then {c} else {}) + (after - {c});
  }

  lemma MovesCloser(callers: map<nat, Caller>, c: nat, next: Caller)
    requires c in callers
    requires (callers[c].Checking? && (next.Holding? || next.Parked?)) || (callers[c].Holding? && next.Notifying?)
    ensures Distance(callers[c := next]) < Distance(callers)
  {
    var after := callers[c := next];
    Regrouped(CheckingOf(callers), CheckingOf(after), c);
    Regrouped(Holders(callers), Holders(after), c);
    Regrouped(NotifyingOf(callers), NotifyingOf(after), c);
  }

  lemma MovesOn(callers: map<nat, Caller>, c: nat, next: Caller)
    requires c in callers && Distance(callers[c := next]) < Distance(callers)
    ensures Weight(callers[c := next]) < Weight(callers)
  {
    assert callers[c := next].Keys == callers.Keys;
  }

  /** Without new arrivals every step brings the callers closer to leaving. */
  lemma StepLowersWeight(s: System, step: Step)
    requires Enabled(s, step) && !step.Arrive?
    ensures Weight(Apply(s, step).callers) < Weight(s.callers)
  {
    var next := Apply(s, step).callers;
    if step.c !in next {
      FewerCallers(s.callers, next, step.c);
    } else {
      MovesCloser(s.callers, step.c, next[step.c]);
      MovesOn(s.callers, step.c, next[step.c]);
    }
  }

  predicate NoArrivals(steps: seq<Step>) {
    forall i :: 0 <= i < |steps| ==> !steps[i].Arrive?
  }

  /** Hence a run without new arrivals is never longer than the weight it starts from. */
  lemma {:induction false} RunIsBounded(s: System, steps: seq<Step>)
    requires Run(s, steps) && NoArrivals(steps)
    ensures |steps| + Weight(After(s, steps).callers) <= Weight(s.callers)
    decreases |steps|
  {
    if steps != [] {
      StepLowersWeight(s, steps[0]);
      RunIsBounded(Apply(s, steps[0]), steps[1..]);
    }
  }

  /** And when it can go no further, every caller has been served or refused and the path is free. */
  lemma AllServedWhenBlocked(steps: seq<Step>)
    requires Run(START, steps) && NamesRevisions(steps)
    requires forall step :: Enabled(After(START, steps), step) ==> step.Arrive?
    ensures var s := After(START, steps);
            s.callers == map[] && s.state.revision == "" && OpenCheckout(s.log) == None
  {
    if After(START, steps).callers != map[] {
      var step := NoDeadlock(steps);
      assert false;
    }
    RunInv(START, steps);
    assert Holders(map[]) == {};
  }

  /** Some holder asked for this revision, and it and the caller both allow company. */
  ghost predicate MayShare(s: System, me: Caller)
    requires !me.Notifying?
  {
    me.concurrent &&
    exists d :: d in Holders(s.callers) && s.callers[d].revision == me.revision && s.callers[d].concurrent
  }

  /**
   What an attempt does in every reachable state, from the callers alone: it holds exactly when the path is free and
   the checkout opens, or when it may share; else it waits, or leaves with the error of the checkout.
   */
  lemma TryOutcome(steps: seq<Step>, c: nat, init: PathLock.Init)
    requires Run(START, steps) && NamesRevisions(steps) && Enabled(After(START, steps), Try(c, init))
    ensures var s := After(START, steps);
            var t, me, free := Apply(s, Try(c, init)), s.callers[c], Holders(s.callers) == {};
            && (c in t.callers && t.callers[c] == Holding(me.revision, me.concurrent)
                <==> (free && init.Opened?) || MayShare(s, me))
            && (c in t.callers && t.callers[c] == Parked(me.revision, me.concurrent) <==> !free && !MayShare(s, me))
            && (c !in t.callers <==> free && init.InitFailed?)
            && t.callers - {c} == s.callers - {c}
            && (free && init.Opened? ==>
                  t.log == s.log + [Init(init.closer)] && t.state.processCount == 1 && t.state.revision == me.revision)
            && (MayShare(s, me) ==>
                  t.log == s.log && t.state.processCount == s.state.processCount + 1
                  && t.state.revision == s.state.revision)
            && (!(free && init.Opened?) && !MayShare(s, me) ==> t.log == s.log && t.state == s.state)
  {
    var s := After(START, steps);
    RunInv(START, steps);
    HoldersShare(s);
    if d :| d in Holders(s.callers) {
      assert MayShare(s, s.callers[c]) <==>
             s.callers[d].revision == s.callers[c].revision && s.callers[d].concurrent && s.callers[c].concurrent;
    }
  }

  function HeldBy(revision: string, n: nat): (callers: map<nat, Caller>)
    ensures |callers| == n && forall c :: c in callers ==> c < n && callers[c] == Holding(revision, true)
  {
    if n == 0 then map[] else HeldBy(revision, n - 1)[n - 1 := Holding(revision, true)]
  }

  /** A path checked out once and held by n callers that allow company. */
  function Shared(revision: string, n: nat): System
    requires n > 0
  {
    System(PathState(revision, n, Some(0), true), HeldBy(revision, n), [Init(0)])
  }

  lemma {:induction false} RunAppend(s: System, steps: seq<Step>, step: Step)
    requires Run(s, steps) && Enabled(After(s, steps), step)
    ensures Run(s, steps + [step]) && After(s, steps + [step]) == Apply(After(s, steps), step)
    decreases |steps|
  {
    if steps == [] {
      assert (steps + [step])[1..] == [];
    } else {
      assert (steps + [step])[1..] == steps[1..] + [step];
      RunAppend(Apply(s, steps[0]), steps[1..], step);
    }
  }

  /** Any number of callers of one revision that allow company can hold the path at once, with one checkout. */
  lemma {:induction false} ManyShare(revision: string, n: nat) returns (steps: seq<Step>)
    requires revision != "" && n > 0
    ensures Run(START, steps) && NamesRevisions(steps) && After(START, steps) == Shared(revision, n)
  {
    steps := [];
    if n > 1 {
      steps := ManyShare(revision, n - 1);
    }
    var c := n - 1;
    RunAppend(START, steps, Arrive(c, revision, true));
    steps := steps + [Arrive(c, revision, true)];
    RunAppend(START, steps, Try(c, Opened(0)));
    steps := steps + [Try(c, Opened(0))];
    assert After(START, steps).callers == HeldBy(revision, n - 1)[c := Holding(revision, true)];
  }

  /** A failed checkout leaves a free path free and the other callers as they were. */
  lemma FailedInitLeavesFree(s: System, c: nat)
    requires Enabled(s, Try(c, InitFailed)) && s.state.revision == ""
    ensures Apply(s, Try(c, InitFailed)) == s.(callers := s.callers - {c})
  {}
}
