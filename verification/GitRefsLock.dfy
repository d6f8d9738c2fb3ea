/**
 The lock on a repository's cached git references: one cache cell that holds a lock marker or published
 references, shared by clients that poll, set-if-absent, re-read, time out, publish and unlock in any order.
 */
module GitRefsLock {
  import opened Wrappers

  /** A reference as its two strings; a lock marker uses the first string of the first pair. */
  type Cell = seq<(string, string)>

  const LOCKED := "locked"

  function LockMarker(id: string): Cell {
    [(LOCKED, id)]
  }

  /** Lock id found, and the references read (none when the cell holds no references). */
  datatype Reading = Reading(lockId: string, references: Cell)

  function DropEmpty(cell: Cell): Cell {
    if cell == [] then []
    else (if cell[0] == ("", "") then [] else [cell[0]]) + DropEmpty(cell[1..])
  }

  function GetGitReferences(cell: Option<Cell>): Reading {
    if cell.None? || cell.value == [] then Reading("", [])
    else if cell.value[0].0 != LOCKED then Reading("", DropEmpty(cell.value))
    else Reading(cell.value[0].1, [])
  }

  lemma {:induction false} DropEmptyIff(cell: Cell)
    ensures |DropEmpty(cell)| <= |cell|
    ensures DropEmpty(cell) == cell <==> ("", "") !in cell
  {
    if cell != [] {
      DropEmptyIff(cell[1..]);
      assert cell == [cell[0]] + cell[1..];
    }
  }

  /** Published references are read back exactly when none is blank and the first is not named like the lock marker. */
  lemma PublishedReadsBackIff(references: Cell)
    ensures GetGitReferences(Some(references)) == Reading("", references)
            <==> references == [] || (references[0].0 != LOCKED && ("", "") !in references)
  {
    DropEmptyIff(references);
  }

  /** A lock marker is never decoded as references. */
  lemma MarkerIsNotReferences(id: string)
    ensures LockMarker(id) == [("locked", id)] && GetGitReferences(Some([("locked", id)])) == Reading(id, [])
  {}

  /** Finding one's own id proves ownership exactly for non-empty ids: an empty one is also found in an empty cell. */
  lemma FoundIdMeansLockedIff(id: string)
    ensures (forall cell :: GetGitReferences(cell).lockId == id ==>
               cell.Some? && cell.value != [] && cell.value[0] == (LOCKED, id))
            <==> id != ""
  {
    if id == "" {
      assert GetGitReferences(None).lockId == id;
    }
  }

  // ---------------------------------------------------------------- the protocol

  /**
   `clean` records that nothing but the client itself has touched the cell since it saw its own marker there:
   it is history, not something the program stores. A finished client has returned these references, none after an
   error.
   */
  datatype Client =
    | Polling
    | Setting
    | Rereading
    | Owner(clean: bool)
    | TimedOut
    | Deleting(clean: bool)
    | Finished(references: Cell)

  /** `faults` records that an expiry or a timeout has happened. */
  datatype System = System(cell: Option<Cell>, clients: map<string, Client>, faults: bool)

  datatype Step =
    | Join(id: string)
    | Poll(id: string)
    | SetIfAbsent(id: string)
    | Reread(id: string)
    | Timeout(id: string)
    | Publish(id: string, references: Cell)
    | ReadForUnlock(id: string)
    | Delete(id: string)
    | CacheError(id: string)
    | Expire

  const START := System(None, map[], false)

  predicate At(s: System, id: string, client: Client) {
    id in s.clients && s.clients[id] == client
  }

  predicate Acts(s: System, id: string) {
    id in s.clients && (s.clients[id].Owner? || s.clients[id].TimedOut?)
  }

  predicate Enabled(s: System, step: Step) {
    match step
    case Join(id) => id !in s.clients && id != ""
    case Poll(id) => At(s, id, Polling)
    case SetIfAbsent(id) => At(s, id, Setting)
    case Reread(id) => At(s, id, Rereading)
    case Timeout(id) => At(s, id, Polling)
    case Publish(id, references) => Acts(s, id) && (references == [] || references[0].0 != LOCKED)
    case ReadForUnlock(id) => Acts(s, id)
    case Delete(id) => id in s.clients && s.clients[id].Deleting?
    case CacheError(id) => id in s.clients && !s.clients[id].Finished?
    case Expire => true
  }

  function Soil(client: Client): Client {
    match client
    case Owner(_) => Owner(false)
    case Deleting(_) => Deleting(false)
    case _ => client
  }

  /** The clients after the cell was cleared or overwritten: whoever's marker was in it has lost it. */
  function Disturb(clients: map<string, Client>, cell: Option<Cell>): map<string, Client> {
    map id | id in clients :: if cell == Some(LockMarker(id)) then Soil(clients[id]) else clients[id]
  }

  /** What a client does after reading the cell inside its wait loop. */
  function AfterReading(cell: Option<Cell>, id: string, otherwise: Client): Client {
    var r := GetGitReferences(cell);
    if r.lockId == id then Owner(true) else if r.references != [] then Finished(r.references) else otherwise
  }

  /**
   After a failed cache call: a read error ends the wait with that error, a failed set-if-absent is ignored, and a
   failed unlock is only logged. A failed publication changes nothing: the client goes on to unlock.
   */
  function AfterError(client: Client): Client {
    if client.Setting? then Rereading else Finished([])
  }

  function Apply(s: System, step: Step): System
    requires Enabled(s, step)
  {
    match step
    case Join(id) => s.(clients := s.clients[id := Polling])
    case Poll(id) => s.(clients := s.clients[id := AfterReading(s.cell, id, Setting)])
    case SetIfAbsent(id) =>
      s.(cell := if s.cell.None? then Some(LockMarker(id)) else s.cell, clients := s.clients[id := Rereading])
    case Reread(id) => s.(clients := s.clients[id := AfterReading(s.cell, id, Polling)])
    case Timeout(id) => s.(clients := s.clients[id := TimedOut], faults := true)
    case Publish(id, references) =>
      s.(cell := Some(references), clients := Disturb(s.clients, s.cell)[id := Finished(references)])
    case ReadForUnlock(id) =>
      s.(clients := s.clients[id := if s.cell == Some(LockMarker(id)) then Deleting(true) else Finished([])])
    case Delete(id) => s.(cell := None, clients := Disturb(s.clients, s.cell)[id := Finished([])])
    case CacheError(id) => s.(clients := s.clients[id := AfterError(s.clients[id])])
    case Expire => s.(cell := None, clients := Disturb(s.clients, s.cell), faults := true)
  }

  predicate Run(s: System, steps: seq<Step>)
    decreases |steps|
  {
    steps == [] || (Enabled(s, steps[0]) && Run(Apply(s, steps[0]), steps[1..]))
  }

  function After(s: System, steps: seq<Step>): System
    requires Run(s, steps)
    decreases |steps|
  {
    if steps == [] then s else After(Apply(s, steps[0]), steps[1..])
  }

  // ---------------------------------------------------------------- invariant

  predicate Holds(client: Client) {
    client.Owner? || client.Deleting?
  }

  predicate IsClean(client: Client) {
    Holds(client) && client.clean
  }

  ghost predicate Inv(s: System) {
    && (s.cell.Some? && s.cell.value != [] && s.cell.value[0].0 == LOCKED ==>
          s.cell == Some(LockMarker(s.cell.value[0].1)))
    && (forall id :: id in s.clients ==> id != "")
    && (forall id :: id in s.clients && IsClean(s.clients[id]) ==> s.cell == Some(LockMarker(id)))
    && (!s.faults ==> forall id :: id in s.clients ==>
          !s.clients[id].TimedOut? && (Holds(s.clients[id]) ==> IsClean(s.clients[id])))
  }

  lemma SameMarker(a: string, b: string)
    requires LockMarker(a) == LockMarker(b)
    ensures a == b
  {
    assert LockMarker(a)[0] == LockMarker(b)[0];
  }

  lemma ReadInv(s: System, id: string, otherwise: Client)
    requires Inv(s) && id in s.clients && (otherwise.Setting? || otherwise.Polling?)
    ensures Inv(s.(clients := s.clients[id := AfterReading(s.cell, id, otherwise)]))
  {}

  /** After a disturbance nobody is clean: the only client that could be has just lost its marker. */
  lemma DisturbSoils(s: System)
    requires Inv(s)
    ensures forall id :: id in s.clients ==> !IsClean(Disturb(s.clients, s.cell)[id])
  {}

  lemma OnlyHolder(s: System, id: string)
    requires Inv(s) && !s.faults && id in s.clients && Holds(s.clients[id])
    ensures forall d :: d in s.clients && Holds(s.clients[d]) ==> d == id
  {
    forall d | d in s.clients && Holds(s.clients[d])
      ensures d == id
    {
      SameMarker(d, id);
    }
  }

  lemma ClearInv(s: System, step: Step)
    requires Inv(s) && Enabled(s, step) && (step.Delete? || step.Expire? || step.Publish?)
    ensures Inv(Apply(s, step))
  {
    DisturbSoils(s);
    if !s.faults && !step.Expire? {
      OnlyHolder(s, step.id);
    }
  }

  lemma StepInv(s: System, step: Step)
    requires Inv(s) && Enabled(s, step)
    ensures Inv(Apply(s, step))
  {
    match step
    case Poll(id) => ReadInv(s, id, Setting);
    case Reread(id) => ReadInv(s, id, Polling);
    case Publish(_, _) => ClearInv(s, step);
    case Delete(_) => ClearInv(s, step);
    case Expire => ClearInv(s, step);
    case _ =>
  }

  lemma {:induction false} RunInv(s: System, steps: seq<Step>)
    requires Inv(s) && Run(s, steps)
    ensures Inv(After(s, steps))
    decreases |steps|
  {
    if steps != [] {
      StepInv(s, steps[0]);
      RunInv(Apply(s, steps[0]), steps[1..]);
    }
  }

  // ---------------------------------------------------------------- what clients may rely on

  predicate Faultless(steps: seq<Step>) {
    forall i :: 0 <= i < |steps| ==> !steps[i].Expire? && !steps[i].Timeout?
  }

  lemma {:induction false} FaultlessRun(s: System, steps: seq<Step>)
    requires Run(s, steps) && Faultless(steps)
    ensures After(s, steps).faults == s.faults
    decreases |steps|
  {
    if steps != [] {
      FaultlessRun(Apply(s, steps[0]), steps[1..]);
    }
  }

  /** Without expiries and timeouts, at most one client fetches or unlocks at a time, and its marker is in the cell. */
  lemma OneOwner(steps: seq<Step>, id: string, other: string)
    requires Run(START, steps) && Faultless(steps)
    requires var s := After(START, steps);
             id in s.clients && other in s.clients && Holds(s.clients[id]) && Holds(s.clients[other])
    ensures After(START, steps).cell == Some(LockMarker(id)) && id == other
  {
    RunInv(START, steps);
    FaultlessRun(START, steps);
    SameMarker(id, other);
  }

  /** The client itself publishes, unlocks, or gives up after a cache error. */
  predicate LetsGo(step: Step, id: string) {
    step == ReadForUnlock(id) || step == CacheError(id) || (step.Publish? && step.id == id)
  }

  /**
   In any run, an owner whose cell is undisturbed loses it only by its own act, by expiry, or to a client that
   timed out or had itself lost its marker before.
   */
  lemma LosesCellOnlyTo(s: System, step: Step, id: string)
    requires Inv(s) && Enabled(s, step) && At(s, id, Owner(true))
    ensures var t := Apply(s, step);
            || (At(t, id, Owner(true)) && t.cell == Some(LockMarker(id)))
            || LetsGo(step, id) || step.Expire?
            || (step.Publish? && step.id != id && (At(s, step.id, TimedOut) || At(s, step.id, Owner(false))))
            || (step.Delete? && step.id != id && At(s, step.id, Deleting(false)))
  {
    if (step.Publish? || step.Delete?) && step.id != id && IsClean(s.clients[step.id]) {
      SameMarker(step.id, id);
    }
  }

  /** So without faults a granted client keeps the cell for as long as it wants, whatever the others do. */
  lemma {:induction false} OwnerKeepsCell(s: System, steps: seq<Step>, id: string)
    requires Inv(s) && !s.faults && At(s, id, Owner(true))
    requires Run(s, steps) && Faultless(steps) && forall i :: 0 <= i < |steps| ==> !LetsGo(steps[i], id)
    ensures At(After(s, steps), id, Owner(true)) && After(s, steps).cell == Some(LockMarker(id))
    decreases |steps|
  {
    if steps != [] {
      assert !LetsGo(steps[0], id) && !steps[0].Expire? && !steps[0].Timeout?;
      LosesCellOnlyTo(s, steps[0], id);
      StepInv(s, steps[0]);
      OwnerKeepsCell(Apply(s, steps[0]), steps[1..], id);
    }
  }

  /** An unlock undisturbed between its read and its delete removes its own marker; with another id, nothing. */
  lemma UnlockRemovesOwn(s: System, id: string)
    requires Inv(s)
    ensures At(s, id, Deleting(true)) ==> s.cell == Some(LockMarker(id)) && Apply(s, Delete(id)).cell == None
    ensures Acts(s, id) && s.cell != Some(LockMarker(id)) ==>
              var t := Apply(s, ReadForUnlock(id)); t.cell == s.cell && At(t, id, Finished([]))
  {}

  // ---------------------------------------------------------------- publishing

  /** References that are read as they are. */
  predicate Readable(references: Cell) {
    references != [] && references[0].0 != LOCKED && ("", "") !in references
  }

  predicate Undisturbed(step: Step) {
    !step.Expire? && !step.Delete? && !step.Publish?
  }

  predicate Reads(step: Step, id: string) {
    step == Poll(id) || step == Reread(id)
  }

  /** While the references stand, whoever reads returns them, nobody becomes owner, and who has returned stays so. */
  lemma PublishedStep(s: System, step: Step, references: Cell)
    requires Inv(s) && s.cell == Some(references) && Readable(references) && Enabled(s, step) && Undisturbed(step)
    ensures var t := Apply(s, step);
            && t.cell == Some(references)
            && (forall id :: Reads(step, id) ==> At(t, id, Finished(references)))
            && (forall id :: At(s, id, Finished(references)) ==> At(t, id, Finished(references)))
            && (forall id :: id in t.clients && Holds(t.clients[id]) ==> id in s.clients && Holds(s.clients[id]))
  {
    PublishedReadsBackIff(references);
    assert forall id :: LockMarker(id)[0].0 == LOCKED;
  }

  lemma {:induction false} PublishedStays(s: System, steps: seq<Step>, references: Cell)
    requires Inv(s) && s.cell == Some(references) && Readable(references) && Run(s, steps)
    requires forall i :: 0 <= i < |steps| ==> Undisturbed(steps[i])
    ensures var t := After(s, steps);
            && t.cell == Some(references)
            && (forall id, i :: 0 <= i < |steps| && Reads(steps[i], id) ==> At(t, id, Finished(references)))
            && (forall id :: At(s, id, Finished(references)) ==> At(t, id, Finished(references)))
            && (forall id :: id in t.clients && Holds(t.clients[id]) ==> id in s.clients && Holds(s.clients[id]))
    decreases |steps|
  {
    if steps != [] {
      var next, rest := Apply(s, steps[0]), steps[1..];
      assert Undisturbed(steps[0]);
      PublishedStep(s, steps[0], references);
      StepInv(s, steps[0]);
      PublishedStays(next, rest, references);
      forall id, i | 0 <= i < |steps| && Reads(steps[i], id)
        ensures At(After(s, steps), id, Finished(references))
      {
        if i > 0 {
          assert rest[i - 1] == steps[i];
        }
      }
    }
  }

  /**
   Once published, and until the cell expires, is deleted or published again: every client that polls or re-reads
   returns exactly the published references, so does the publisher, and nobody becomes owner.
   */
  lemma PublishedIsReturned(s: System, id: string, references: Cell, steps: seq<Step>)
    requires Inv(s) && Enabled(s, Publish(id, references)) && Readable(references)
    requires Run(Apply(s, Publish(id, references)), steps) && forall i :: 0 <= i < |steps| ==> Undisturbed(steps[i])
    ensures var t := After(Apply(s, Publish(id, references)), steps);
            && t.cell == Some(references) && At(t, id, Finished(references))
            && (forall d, i :: 0 <= i < |steps| && Reads(steps[i], d) ==> At(t, d, Finished(references)))
            && (forall d :: d in t.clients && Holds(t.clients[d]) ==> d in s.clients && Holds(s.clients[d]) && d != id)
  {
    StepInv(s, Publish(id, references));
    PublishedStays(Apply(s, Publish(id, references)), steps, references);
  }

  /** A failed set-if-absent leaves the decision to the next read; any other failure ends the client empty-handed. */
  lemma ErrorOutcome(s: System, id: string)
    requires Enabled(s, CacheError(id))
    ensures var t := Apply(s, CacheError(id));
            && t.cell == s.cell
            && (At(s, id, Setting) ==> Enabled(t, Reread(id)))
            && (!At(s, id, Setting) ==> At(t, id, Finished([])))
  {}

  /** A client that is tired of waiting fetches and publishes without owning the cell, and takes it from its owner. */
  lemma TimedOutActs(s: System, id: string, references: Cell)
    requires At(s, id, Polling) && Readable(references)
    ensures Enabled(s, Timeout(id))
    ensures var t := Apply(s, Timeout(id));
            && t.cell == s.cell && Enabled(t, Publish(id, references)) && Enabled(t, ReadForUnlock(id))
            && Apply(t, Publish(id, references)).cell == Some(references)
  {}

  lemma {:induction false} RunAppend(s: System, steps: seq<Step>, step: Step)
    requires Run(s, steps) && Enabled(After(s, steps), step)
    ensures Run(s, steps + [step]) && After(s, steps + [step]) == Apply(After(s, steps), step)
    decreases |steps|
  {
    if steps == [] {
      assert (steps + [step])[1..] == [];
    } else {
      assert (steps + [step])[1..] == steps[1..] + [step];
      RunAppend(Apply(s, steps[0]), steps[1..], step);
    }
  }

  /** A client that takes a free cell: join, poll, set, re-read. */
  lemma Acquire(steps: seq<Step>, id: string) returns (more: seq<Step>)
    requires Run(START, steps) && id != "" && id !in After(START, steps).clients && After(START, steps).cell == None
    ensures Run(START, more)
    ensures var s, t := After(START, steps), After(START, more);
            t == System(Some(LockMarker(id)), s.clients[id := Owner(true)], s.faults)
  {
    var s := After(START, steps);
    RunAppend(START, steps, Join(id));
    more := steps + [Join(id)];
    RunAppend(START, more, Poll(id));
    more := more + [Poll(id)];
    RunAppend(START, more, SetIfAbsent(id));
    more := more + [SetIfAbsent(id)];
    assert After(START, more) == System(Some(LockMarker(id)), s.clients[id := Rereading], s.faults);
    RunAppend(START, more, Reread(id));
    more := more + [Reread(id)];
  }

  /** With an expiry between its read and its delete, an unlock can remove the marker another client has just set. */
  lemma StaleUnlockRemovesOther()
    ensures exists steps: seq<Step> ::
              && Run(START, steps)
              && var s := After(START, steps);
                 && At(s, "b", Owner(true)) && s.cell == Some(LockMarker("b"))
                 && Enabled(s, Delete("a")) && Apply(s, Delete("a")).cell == None
  {
    var steps := Acquire([], "a");
    RunAppend(START, steps, ReadForUnlock("a"));
    steps := steps + [ReadForUnlock("a")];
    RunAppend(START, steps, Expire);
    steps := steps + [Expire];
    var s := After(START, steps);
    assert s.cell == None && s.clients.Keys == {"a"} && s.clients["a"] == Deleting(false);
    assert "b"[0] != "a"[0];
    steps := Acquire(steps, "b");
    assert At(After(START, steps), "a", Deleting(false));
  }
}
