/**
 Whole runs of one application: its status, operation and history change as the environment likes, the controller
 reconciles it at any time, and repo-server calls fail or time out.
 */
module SyncRuns {
  import opened Wrappers
  import opened Revisions
  import opened Annotations
  import opened Tracking

  /**
   An application at some moment. `restart` holds, per source, the commit where tracking last started afresh: history,
   not stored anywhere.
   */
  datatype Snapshot = Snapshot(app: Application, restart: seq<nat>)

  /** The application as it is, and as it was before: the controller may still be handed any of these copies. */
  datatype System = System(now: Snapshot, past: seq<Snapshot>)

  datatype Event =
    | Change(app: Application)  // anything but the specification and the controller's own notes
    | Observe(copy: Snapshot, down: map<nat, bool>)  // a reconciliation; these calls fail, `true` by timing out

  /** One repository per source. */
  function AskOf(ws: seq<World>, down: map<nat, bool>): Ask {
    (i: nat, current: string, previous: string) =>
      if i in down then Unanswered(down[i])
      else if i < |ws| then ReplyTo(ws[i], current, previous)
      else Unanswered(false)
  }

  predicate SameNotes(a: Application, b: Application) {
    && b.spec == a.spec
    && forall k :: k in {ChangeRevision, ChangeRevisions, GitRevision, GitRevisions, GeneratePaths} ==>
         (k in a.annotations <==> k in b.annotations) && (k in a.annotations ==> a.annotations[k] == b.annotations[k])
  }

  function ChangeNote(a: Application, json: Json, i: nat): string
    requires i < NumSources(a)
  {
    SourceAt(a, json, i).change
  }

  function GitNote(a: Application, json: Json, i: nat): string
    requires i < NumSources(a)
  {
    SourceAt(a, json, i).git
  }

  predicate IsGit(a: Application, i: nat)
    requires i < NumSources(a)
  {
    match a.spec
    case SingleSource(source) => TrimSpace(source.chart) == ""
    case MultiSource(sources) => TrimSpace(sources[i].chart) == ""
  }

  ghost predicate Shape(ws: seq<World>, x: Snapshot) {
    && HasSources(x.app) && |ws| == |x.restart| == NumSources(x.app)
    && forall i :: 0 <= i < |ws| && IsGit(x.app, i) ==> Linear(ws[i])
  }

  /** Some state of this very application, now or earlier. */
  ghost predicate Seen(s: System, copy: Snapshot) {
    copy == s.now || copy in s.past
  }

  ghost predicate Enabled(ws: seq<World>, s: System, e: Event) {
    && Shape(ws, s.now)
    && match e
       case Change(app) => SameNotes(s.now.app, app)
       case Observe(copy, _) => Seen(s, copy) && Shape(ws, copy) && copy.app.spec == s.now.app.spec
  }

  /** No earlier change revision applies: nothing before, a way back, or nothing known and nothing found. */
  predicate Restarts(w: World, r: SourceRevisions, down: bool) {
    && MustAsk(r) && !down && r.current in w.commits
    && (|| r.previous == ""
        || (&& r.previous in w.commits
            && var p, n := IndexOf(w.commits, r.previous), IndexOf(w.commits, r.current);
               n < p || (r.change == "" && Newest(Touching(w), FirstListed(p, n), n) == None)))
  }

  function RestartAt(w: World, r: SourceRevisions, down: bool, restart: nat): nat {
    if Restarts(w, r, down) then IndexOf(w.commits, r.current) else restart
  }

  function NextRestart(ws: seq<World>, json: Json, x: Snapshot, down: map<nat, bool>): seq<nat>
    requires |ws| == |x.restart| == NumSources(x.app)
  {
    seq(|ws|, i requires 0 <= i < |ws| => RestartAt(ws[i], SourceAt(x.app, json, i), i in down, x.restart[i]))
  }

  /** What the application becomes: a patch made from a copy is merged into the notes as they are now. */
  ghost function Next(ws: seq<World>, json: Json, s: System, e: Event): Snapshot
    requires Enabled(ws, s, e)
  {
    match e
    case Change(app) => s.now.(app := app)
    case Observe(copy, down) =>
      match MakePatch(copy.app, AskOf(ws, down), json)
      case Patch(p) =>
        Snapshot(s.now.app.(annotations := s.now.app.annotations + p), NextRestart(ws, json, copy, down))
      case _ => s.now
  }

  ghost function Apply(ws: seq<World>, json: Json, s: System, e: Event): System
    requires Enabled(ws, s, e)
  {
    System(Next(ws, json, s, e), s.past + [s.now])
  }

  ghost predicate Run(ws: seq<World>, json: Json, s: System, events: seq<Event>)
    decreases |events|
  {
    events == [] || (Enabled(ws, s, events[0]) && Run(ws, json, Apply(ws, json, s, events[0]), events[1..]))
  }

  ghost function After(ws: seq<World>, json: Json, s: System, events: seq<Event>): System
    requires Run(ws, json, s, events)
    decreases |events|
  {
    if events == [] then s else After(ws, json, Apply(ws, json, s, events[0]), events[1..])
  }

  // ---------------------------------------------------------------- every safe run tracks

  /** The notes of a source are accurate, and the change revision touches the app or is where tracking restarted. */
  ghost predicate Tracked(w: World, change: string, git: string, restart: nat) {
    && NotesAccurate(w, change, git)
    && (change != "" ==> IndexOf(w.commits, change) in Touching(w) || IndexOf(w.commits, change) == restart)
  }

  ghost predicate TrackedAt(ws: seq<World>, json: Json, x: Snapshot, i: nat)
    requires i < |ws| == |x.restart| == NumSources(x.app)
  {
    Tracked(ws[i], ChangeNote(x.app, json, i), GitNote(x.app, json, i), x.restart[i])
  }

  ghost predicate Tracks(ws: seq<World>, json: Json, x: Snapshot) {
    Shape(ws, x) && forall i :: 0 <= i < |ws| && IsGit(x.app, i) ==> TrackedAt(ws, json, x, i)
  }

  /** So is every state the controller may have a copy of. */
  ghost predicate AllTrack(ws: seq<World>, json: Json, s: System) {
    forall x :: Seen(s, x) ==> Tracks(ws, json, x) && x.app.spec == s.now.app.spec
  }

  /** If the source must be asked about, this is safe. */
  ghost predicate SafeSource(w: World, r: SourceRevisions, down: bool) {
    MustAsk(r) ==>
      && r.current in w.commits && (r.change != "" ==> r.change in w.commits && r.git in w.commits)
      && Safe(w.commits, r, down)
  }

  /**
   A reconciliation that records something is safe for every git source, and what its copy had right, and therefore
   left out of the patch, is still so.
   */
  ghost predicate SafeEvent(ws: seq<World>, json: Json, s: System, e: Event)
    requires Enabled(ws, s, e)
  {
    e.Observe? && MakePatch(e.copy.app, AskOf(ws, e.down), json).Patch? ==>
      && StillRight(e.copy.app.annotations, s.now.app.annotations, RecordOf(e.copy.app, AskOf(ws, e.down), json))
      && forall i :: 0 <= i < |ws| && IsGit(e.copy.app, i) ==>
           SafeSource(ws[i], SourceAt(e.copy.app, json, i), i in e.down)
  }

  ghost predicate SafeRun(ws: seq<World>, json: Json, s: System, events: seq<Event>)
    requires Run(ws, json, s, events)
    decreases |events|
  {
    events != [] ==>
      SafeEvent(ws, json, s, events[0]) && SafeRun(ws, json, Apply(ws, json, s, events[0]), events[1..])
  }

  /** Where a new change revision comes from. */
  lemma NotedOrigin(w: World, r: SourceRevisions, down: bool, restart: nat)
    requires Linear(w) && MustAsk(r) && r.current in w.commits && Tracked(w, r.change, r.git, restart)
    ensures var change, next := Noted(w, r, down).0, RestartAt(w, r, down, restart);
            change != "" && change in w.commits ==>
              IndexOf(w.commits, change) in Touching(w) || IndexOf(w.commits, change) == next
  {
    if "" in w.commits {
      Hashes(w.commits, "");
    }
    if !down && r.previous == "" {
      RestartAccurate(w, r);
    } else if !Answerable(w.commits, r, down) {
      UpdateWithoutAnswer(w, r, down);
    } else {
      var p, n := IndexOf(w.commits, r.previous), IndexOf(w.commits, r.current);
      ReplyOnLine(w, p, n);
      FoundOrigin(w, p, n);
    }
  }

  lemma FoundOrigin(w: World, p: nat, n: nat)
    requires Linear(w) && n < |w.commits|
    ensures var found := Newest(Touching(w), FirstListed(p, n), n);
            found.Some? ==> Hit(w.commits, found) != "" && IndexOf(w.commits, Hit(w.commits, found)) in Touching(w)
  {
    var found := Newest(Touching(w), FirstListed(p, n), n);
    NewestIs(Touching(w), FirstListed(p, n), n);
    if found.Some? {
      UniqueIndex(w.commits, found.value);
      Hashes(w.commits, w.commits[found.value]);
    }
  }

  /** One git source through one reconciliation that is recorded. */
  lemma SourceStep(w: World, r: SourceRevisions, reply: Reply, down: bool, restart: nat)
    requires Linear(w) && !r.helm && Tracked(w, r.change, r.git, restart) && SafeSource(w, r, down)
    requires reply == Response(w, r, down)
    ensures var (change, git) := Update(r, reply);
            Tracked(w, change, git, RestartAt(w, r, down, restart)) && (r.current != "" ==> git == r.current)
  {
    if MustAsk(r) {
      SafeIsAccurate(w, r, down);
      NotedOrigin(w, r, down, restart);
    }
  }

  /** The reply is the one the source step speaks of, as no recorded reconciliation has a timeout. */
  lemma ReplyIsResponse(ws: seq<World>, json: Json, a: Application, down: map<nat, bool>, i: nat)
    requires HasSources(a) && i < |ws| == NumSources(a) && MakePatch(a, AskOf(ws, down), json).Patch?
    requires MustAsk(SourceAt(a, json, i))
    ensures ReplyAt(a, AskOf(ws, down), json, i) == Response(ws[i], SourceAt(a, json, i), i in down)
  {
    assert !TimesOut(a, AskOf(ws, down), json, i);
  }

  lemma UpdateOnlyIfAsked(r: SourceRevisions, reply: Reply, other: Reply)
    requires !MustAsk(r)
    ensures Update(r, reply) == Update(r, other)
  {}

  /** One source through a recorded reconciliation of a copy: what is noted, and that it is tracked. */
  lemma CopySource(ws: seq<World>, json: Json, x: Snapshot, down: map<nat, bool>, i: nat)
    requires Tracks(ws, json, x) && i < |ws| && IsGit(x.app, i)
    requires MakePatch(x.app, AskOf(ws, down), json).Patch?
    requires SafeSource(ws[i], SourceAt(x.app, json, i), i in down)
    ensures var r, (change, git) := SourceAt(x.app, json, i), Updated(x.app, AskOf(ws, down), json, i);
            && Tracked(ws[i], change, git, NextRestart(ws, json, x, down)[i])
            && (r.current != "" ==> git == r.current)
  {
    var ask, r := AskOf(ws, down), SourceAt(x.app, json, i);
    var reply, response := ReplyAt(x.app, ask, json, i), Response(ws[i], r, i in down);
    if MustAsk(r) {
      ReplyIsResponse(ws, json, x.app, down, i);
    } else {
      UpdateOnlyIfAsked(r, reply, response);
    }
    SourceStep(ws[i], r, response, i in down, x.restart[i]);
  }

  /** What is read after merging the patch of a copy whose right values are still right: all it computed. */
  lemma CopyReadsBack(a: Application, now: Application, ask: Ask, json: Json, i: nat)
    requires RoundTrips(json) && HasSources(a) && now.spec == a.spec && i < NumSources(a)
    requires MakePatch(a, ask, json).Patch? && StillRight(a.annotations, now.annotations, RecordOf(a, ask, json))
    ensures var b := now.(annotations := now.annotations + MakePatch(a, ask, json).annotations);
            && SourceAt(b, json, i) == SourceAt(now, json, i).(change := Updated(a, ask, json, i).0,
                                                               git := Updated(a, ask, json, i).1)
            && SameElsewhere(now.annotations, b.annotations)
  {
    var changes, gits := Changes(a, ask, json), Gits(a, ask, json);
    StaleMergeRecordsIff(a.annotations, now.annotations, changes, gits, json);
    RecordReadsBack(now.annotations, changes, gits, json);
    SourceFromRecord(now, now.annotations + Record(changes, gits, json), changes, gits, json, i);
  }

  lemma ObserveSource(ws: seq<World>, json: Json, s: System, copy: Snapshot, down: map<nat, bool>, i: nat)
    requires RoundTrips(json) && Enabled(ws, s, Observe(copy, down)) && Tracks(ws, json, copy)
    requires i < |ws| && IsGit(copy.app, i) && SafeSource(ws[i], SourceAt(copy.app, json, i), i in down)
    requires MakePatch(copy.app, AskOf(ws, down), json).Patch?
    requires StillRight(copy.app.annotations, s.now.app.annotations, RecordOf(copy.app, AskOf(ws, down), json))
    ensures var t, r := Next(ws, json, s, Observe(copy, down)), SourceAt(copy.app, json, i);
            && TrackedAt(ws, json, t, i)
            && SourceAt(t.app, json, i) ==
               SourceAt(s.now.app, json, i).(change := Updated(copy.app, AskOf(ws, down), json, i).0,
                                             git := Updated(copy.app, AskOf(ws, down), json, i).1)
            && (r.current != "" ==> GitNote(t.app, json, i) == r.current)
  {
    CopySource(ws, json, copy, down, i);
    CopyReadsBack(copy.app, s.now.app, AskOf(ws, down), json, i);
  }

  lemma SameNotesRead(a: Application, b: Application, json: Json, i: nat)
    requires SameNotes(a, b) && i < NumSources(a)
    ensures ChangeNote(b, json, i) == ChangeNote(a, json, i) && GitNote(b, json, i) == GitNote(a, json, i)
  {}

  /** The next state is tracked. */
  lemma NextTracks(ws: seq<World>, json: Json, s: System, e: Event)
    requires RoundTrips(json) && AllTrack(ws, json, s) && Enabled(ws, s, e) && SafeEvent(ws, json, s, e)
    ensures Tracks(ws, json, Next(ws, json, s, e)) && Next(ws, json, s, e).app.spec == s.now.app.spec
  {
    var t := Next(ws, json, s, e);
    assert Seen(s, s.now) && t.app.spec == s.now.app.spec;
    forall i | 0 <= i < |ws| && IsGit(t.app, i)
      ensures TrackedAt(ws, json, t, i)
    {
      assert TrackedAt(ws, json, s.now, i);
      if e.Change? {
        SameNotesRead(s.now.app, e.app, json, i);
      } else if MakePatch(e.copy.app, AskOf(ws, e.down), json).Patch? {
        ObserveSource(ws, json, s, e.copy, e.down, i);
      }
    }
  }

  lemma StepTracks(ws: seq<World>, json: Json, s: System, e: Event)
    requires RoundTrips(json) && AllTrack(ws, json, s) && Enabled(ws, s, e) && SafeEvent(ws, json, s, e)
    ensures AllTrack(ws, json, Apply(ws, json, s, e))
  {
    NextTracks(ws, json, s, e);
    assert forall x :: Seen(Apply(ws, json, s, e), x) ==> x == Next(ws, json, s, e) || Seen(s, x);
  }

  /**
   The program's claim in any environment: over every run in which each recorded reconciliation is safe, no commit
   after a git source's change revision up to its noted revision touches the app, and the change revision touches it
   or is where tracking last restarted. Nothing else is asked of status, operation, history, failures or order, and
   the controller may work on a copy of any earlier state.
   */
  lemma {:induction false} SafeRunsTrack(ws: seq<World>, json: Json, s: System, events: seq<Event>)
    requires RoundTrips(json) && AllTrack(ws, json, s)
    requires Run(ws, json, s, events) && SafeRun(ws, json, s, events)
    ensures AllTrack(ws, json, After(ws, json, s, events))
    decreases |events|
  {
    if events != [] {
      StepTracks(ws, json, s, events[0]);
      SafeRunsTrack(ws, json, Apply(ws, json, s, events[0]), events[1..]);
    }
  }

  // ---------------------------------------------------------------- without paths

  /** The four notes of x are those of y. */
  ghost predicate SameRecord(x: Application, y: Application) {
    forall k :: k in {ChangeRevision, ChangeRevisions, GitRevision, GitRevisions} ==>
      (k in x.annotations <==> k in y.annotations) && (k in x.annotations ==> x.annotations[k] == y.annotations[k])
  }

  /** Neither now nor in any copy does the application name paths. */
  ghost predicate NeverNamesPaths(s: System) {
    forall x :: Seen(s, x) ==> !NamesPaths(x.app)
  }

  /** Over every run, safe or not, an application that never names paths is never annotated. */
  lemma {:induction false} WithoutPathsNotAnnotated(ws: seq<World>, json: Json, s: System, events: seq<Event>)
    requires Run(ws, json, s, events) && NeverNamesPaths(s)
    ensures var t := After(ws, json, s, events); SameRecord(s.now.app, t.now.app) && NeverNamesPaths(t)
    decreases |events|
  {
    if events != [] {
      var e, t := events[0], Apply(ws, json, s, events[0]);
      assert Seen(s, s.now);
      if e.Observe? {
        NoPathsNoChange(e.copy.app, AskOf(ws, e.down), json);
      }
      assert !NamesPaths(t.now.app) && SameRecord(s.now.app, t.now.app);
      assert forall x :: Seen(t, x) ==> x == t.now || Seen(s, x);
      WithoutPathsNotAnnotated(ws, json, t, events[1..]);
    }
  }

  // ---------------------------------------------------------------- per-source views

  function OpRevision(a: Application, i: nat): string
    requires a.operation.Some?
  {
    if a.spec.SingleSource? then a.operation.value.revision else At(a.operation.value.revisions, i)
  }

  function ResultRevision(a: Application, i: nat): string
    requires a.result.Some?
  {
    if a.spec.SingleSource? then a.result.value.revision else At(a.result.value.revisions, i)
  }

  function SyncedRevision(a: Application, i: nat): string {
    if a.spec.SingleSource? then a.synced.revision else At(a.synced.revisions, i)
  }

  /** The revision of source i in a history entry. */
  function RevisionIn(a: Application, entry: HistoryEntry, i: nat): string
    requires i < NumSources(a)
  {
    if a.spec.SingleSource? then entry.revision else FromHistory(entry, a.spec.sources[i], i)
  }

  function EntryRevision(a: Application, h: nat, i: nat): string
    requires h < |a.history| && i < NumSources(a)
  {
    RevisionIn(a, a.history[h], i)
  }

  function LastRevision(a: Application, i: nat): string
    requires a.history != [] && i < NumSources(a)
  {
    EntryRevision(a, |a.history| - 1, i)
  }

  function FirstSync(a: Application, i: nat): string {
    if a.operation.Some? then OpRevision(a, i) else if a.syncStatus == "Synced" then SyncedRevision(a, i) else ""
  }

  lemma Views(a: Application, json: Json, i: nat)
    requires i < NumSources(a)
    ensures var r, n := SourceAt(a, json, i), |a.history|;
            (r.current, r.previous) ==
            if n == 0 then (FirstSync(a, i), "")
            else if SyncDone(a) then (ResultRevision(a, i), if n == 1 then "" else EntryRevision(a, n - 2, i))
            else (FirstSync(a, i), EntryRevision(a, n - 1, i))
  {}

  // ---------------------------------------------------------------- syncs in order are safe

  /** The last n entries, as the history is kept short. */
  function Trunc(history: seq<HistoryEntry>, n: int): seq<HistoryEntry> {
    var keep := if n < 0 then 0 else n;
    if |history| > keep then history[|history| - keep..] else history
  }

  /** As many entries as asked for, or all there are. */
  lemma TruncSize(history: seq<HistoryEntry>, n: int)
    ensures |Trunc(history, n)| == if n <= 0 then 0 else if n < |history| then n else |history|
    ensures Trunc(history, n) == history[|history| - |Trunc(history, n)|..]
  {}

  /**
   What is read of source i lies on its line: the last two entries, a running sync that names a revision, and before
   the first entry the revision compared to. A sync reported done is that of the newest entry.
   */
  ghost predicate OnLine(w: World, a: Application, i: nat)
    requires i < NumSources(a)
  {
    && (forall h :: 0 <= h < |a.history| && |a.history| - 2 <= h ==> EntryRevision(a, h, i) in w.commits)
    && (a.operation.Some? ==> OpRevision(a, i) == "" || OpRevision(a, i) in w.commits)
    && (a.history == [] && a.operation.None? && a.syncStatus == "Synced" ==>
          SyncedRevision(a, i) == "" || SyncedRevision(a, i) in w.commits)
    && (a.history != [] && SyncDone(a) ==> ResultRevision(a, i) == LastRevision(a, i))
  }

  /** Any status, operation and history; an idle application that is in sync and has a history has a result. */
  ghost predicate Status(ws: seq<World>, a: Application) {
    && |ws| == NumSources(a) && Rested(a)
    && forall i :: 0 <= i < |ws| && IsGit(a, i) ==> OnLine(ws[i], a, i)
  }

  predicate Rested(a: Application) {
    a.history != [] && a.operation.None? && a.syncStatus == "Synced" ==> a.result.Some?
  }

  /** The newest history entry has been reconciled for this source. */
  predicate Caught(a: Application, json: Json, i: nat)
    requires i < NumSources(a)
  {
    a.history == [] || (ChangeNote(a, json, i) != "" && GitNote(a, json, i) == LastRevision(a, i))
  }

  /** For every git source: not annotated yet, or the newest entry has been reconciled. */
  ghost predicate Reconciled(a: Application, json: Json) {
    forall i :: 0 <= i < NumSources(a) && IsGit(a, i) ==> GitNote(a, json, i) == "" || Caught(a, json, i)
  }

  /** An entry for the running sync: for every git source the revision the sync names, if it names one. */
  ghost predicate EntryFor(a: Application, entry: HistoryEntry)
    requires a.operation.Some?
  {
    forall i :: 0 <= i < NumSources(a) && IsGit(a, i) ==>
      OpRevision(a, i) == "" || RevisionIn(a, entry, i) == OpRevision(a, i)
  }

  /** The entry of the sources as specified and the revisions of the operation is such. */
  lemma OperationEntry(a: Application)
    requires a.operation.Some?
    ensures var op := a.operation.value;
            var sources := match a.spec case SingleSource(source) => [source] case MultiSource(sources) => sources;
            EntryFor(a, HistoryEntry(op.revision, sources, op.revisions))
  {}

  /**
   How the application may change while it is synced in order. The history may be cut short at any time, and status,
   result and compared revision may change freely, except that a running sync is not reported done.
   - nothing begins or ends;
   - a sync begins, once the last one has been reconciled or nothing was ever annotated;
   - the running sync is given up before it was reconciled;
   - the running sync succeeds and enters the history.
   */
  ghost predicate InOrder(json: Json, a: Application, b: Application) {
    || (Keeps(b, a.history) && b.operation == a.operation && (a.operation.Some? && SyncDone(b) ==> SyncDone(a)))
    || (Keeps(b, a.history) && a.operation.None? != b.operation.None? && Reconciled(a, json))
    || (a.operation.Some? && b.operation.None? && Finishes(a, b))
  }

  /** The history of b is the given one, or what is kept of it. */
  ghost predicate Keeps(b: Application, history: seq<HistoryEntry>) {
    exists limit: int :: b.history == Trunc(history, limit)
  }

  ghost predicate Finishes(a: Application, b: Application)
    requires a.operation.Some?
  {
    exists entry: HistoryEntry :: EntryFor(a, entry) && Keeps(b, a.history + [entry])
  }

  /** No call about a git source fails other than by timing out, unless it is not made. */
  ghost predicate Answered(json: Json, a: Application, down: map<nat, bool>) {
    forall i :: 0 <= i < NumSources(a) && IsGit(a, i) && i in down && !down[i] ==> !MustAsk(SourceAt(a, json, i))
  }

  ghost predicate InOrderEvent(ws: seq<World>, json: Json, s: System, e: Event) {
    match e
    case Change(app) => InOrder(json, s.now.app, app) && Status(ws, app)
    case Observe(copy, down) => copy == s.now && Answered(json, copy.app, down)
  }

  ghost predicate InOrderRun(ws: seq<World>, json: Json, s: System, events: seq<Event>)
    requires Run(ws, json, s, events)
    decreases |events|
  {
    events != [] ==>
      InOrderEvent(ws, json, s, events[0]) && InOrderRun(ws, json, Apply(ws, json, s, events[0]), events[1..])
  }

  /** The notes are about the newest entry or, until it is reconciled, the one before, or the running sync. */
  ghost predicate InStep(a: Application, git: string, i: nat)
    requires i < NumSources(a)
  {
    var n := |a.history|;
    && (a.operation.Some? && n > 0 && git != "" ==>
          git == LastRevision(a, i) || (git == OpRevision(a, i) && !SyncDone(a)))
    && (a.operation.None? && n >= 2 && git != "" ==> git == LastRevision(a, i) || git == EntryRevision(a, n - 2, i))
  }

  ghost predicate InStepAt(json: Json, a: Application, i: nat)
    requires i < NumSources(a)
  {
    InStep(a, GitNote(a, json, i), i) && (ChangeNote(a, json, i) == "" <==> GitNote(a, json, i) == "")
  }

  ghost predicate Inv(ws: seq<World>, json: Json, s: System) {
    && AllTrack(ws, json, s) && Tracks(ws, json, s.now) && Status(ws, s.now.app)
    && forall i :: 0 <= i < |ws| && IsGit(s.now.app, i) ==> InStepAt(json, s.now.app, i)
  }

  /** An application the controller has not annotated yet, in any state. */
  ghost predicate Fresh(ws: seq<World>, json: Json, x: Snapshot) {
    && Shape(ws, x) && Status(ws, x.app)
    && forall i :: 0 <= i < |ws| && IsGit(x.app, i) ==>
         ChangeNote(x.app, json, i) == "" && GitNote(x.app, json, i) == ""
  }

  /** In step, a source is asked about from the very revision that was noted last, or without one. */
  lemma InStepIsSafe(w: World, a: Application, json: Json, i: nat)
    requires Linear(w) && i < NumSources(a) && OnLine(w, a, i) && Rested(a) && InStepAt(json, a, i)
    requires NotesAccurate(w, ChangeNote(a, json, i), GitNote(a, json, i))
    ensures var r := SourceAt(a, json, i);
            && SafeSource(w, r, false) && (r.previous == "" || r.previous in w.commits)
            && (r.current != "" ==> r.current in w.commits && InStep(a, r.current, i))
  {
    var r := SourceAt(a, json, i);
    Views(a, json, i);
    if MustAsk(r) && r.change != "" && r.previous != "" {
      assert r.git == r.previous;
    }
  }

  /** With the repo server up, a change revision is noted whenever a git revision is. */
  lemma AnsweredNotes(w: World, r: SourceRevisions)
    requires Linear(w) && !r.helm && (r.change == "" <==> r.git == "")
    requires MustAsk(r) ==> r.current in w.commits && (r.previous == "" || r.previous in w.commits)
    ensures var (change, git) := Update(r, Response(w, r, false)); change == "" <==> git == ""
  {
    if MustAsk(r) {
      if "" in w.commits {
        Hashes(w.commits, "");
      }
      if r.previous == "" {
        RestartAccurate(w, r);
      } else {
        var p, n := IndexOf(w.commits, r.previous), IndexOf(w.commits, r.current);
        ReplyOnLine(w, p, n);
      }
    }
  }

  lemma SameEntries(a: Application, b: Application, i: nat)
    requires b.spec == a.spec && i < NumSources(a) && b.history == a.history
    ensures forall h :: 0 <= h < |a.history| ==> EntryRevision(b, h, i) == EntryRevision(a, h, i)
  {}

  lemma SameInStep(a: Application, b: Application, i: nat, git: string)
    requires i < NumSources(a) && b == a.(annotations := b.annotations) && InStep(a, git, i)
    ensures InStep(b, git, i)
  {
    SameEntries(a, b, i);
  }

  lemma SameOnLine(a: Application, b: Application, i: nat, w: World)
    requires i < NumSources(a) && b == a.(annotations := b.annotations) && OnLine(w, a, i)
    ensures OnLine(w, b, i)
  {
    SameEntries(a, b, i);
  }

  /** With the copy being the application as it is, what it has right is right. */
  lemma CurrentStillRight(a: Application, ask: Ask, json: Json)
    requires HasSources(a)
    ensures StillRight(a.annotations, a.annotations, RecordOf(a, ask, json))
  {}

  /** In a recorded reconciliation in order, what is asked about is answered. */
  lemma AskedIsUp(ws: seq<World>, json: Json, a: Application, down: map<nat, bool>, i: nat)
    requires HasSources(a) && i < NumSources(a) && IsGit(a, i) && Answered(json, a, down)
    requires MakePatch(a, AskOf(ws, down), json).Patch?
    ensures MustAsk(SourceAt(a, json, i)) ==> i !in down
  {
    assert !TimesOut(a, AskOf(ws, down), json, i);
  }

  /** Every event in order is safe. */
  lemma InOrderIsSafe(ws: seq<World>, json: Json, s: System, e: Event)
    requires Inv(ws, json, s) && Enabled(ws, s, e) && InOrderEvent(ws, json, s, e)
    ensures SafeEvent(ws, json, s, e)
  {
    if e.Observe? && MakePatch(e.copy.app, AskOf(ws, e.down), json).Patch? {
      CurrentStillRight(e.copy.app, AskOf(ws, e.down), json);
      forall i | 0 <= i < |ws| && IsGit(e.copy.app, i)
        ensures SafeSource(ws[i], SourceAt(e.copy.app, json, i), i in e.down)
      {
        assert TrackedAt(ws, json, s.now, i);
        InStepIsSafe(ws[i], s.now.app, json, i);
        AskedIsUp(ws, json, e.copy.app, e.down, i);
      }
    }
  }

  lemma GitMovesToCurrent(r: SourceRevisions, reply: Reply)
    ensures Update(r, reply).1 == if r.current == "" then r.git else r.current
  {}

  /** What is noted for a source that is answered if asked about. */
  lemma AnsweredUpdate(ws: seq<World>, json: Json, a: Application, down: map<nat, bool>, i: nat)
    requires HasSources(a) && i < |ws| == NumSources(a) && IsGit(a, i)
    requires MakePatch(a, AskOf(ws, down), json).Patch? && Answered(json, a, down)
    ensures Updated(a, AskOf(ws, down), json, i) ==
            Update(SourceAt(a, json, i), Response(ws[i], SourceAt(a, json, i), false))
  {
    var r, reply := SourceAt(a, json, i), ReplyAt(a, AskOf(ws, down), json, i);
    AskedIsUp(ws, json, a, down, i);
    if MustAsk(r) {
      ReplyIsResponse(ws, json, a, down, i);
    } else {
      UpdateOnlyIfAsked(r, reply, Response(ws[i], r, false));
    }
  }

  /** What is noted for a source in step keeps it in step. */
  lemma NotedInStep(w: World, a: Application, json: Json, i: nat)
    requires Linear(w) && i < NumSources(a) && IsGit(a, i) && OnLine(w, a, i) && Rested(a) && InStepAt(json, a, i)
    requires NotesAccurate(w, ChangeNote(a, json, i), GitNote(a, json, i))
    ensures var (change, git) := Update(SourceAt(a, json, i), Response(w, SourceAt(a, json, i), false));
            InStep(a, git, i) && (change == "" <==> git == "")
  {
    var r := SourceAt(a, json, i);
    InStepIsSafe(w, a, json, i);
    AnsweredNotes(w, r);
    GitMovesToCurrent(r, Response(w, r, false));
  }

  /** Reconciling keeps a source in step. */
  lemma ObserveInStep(ws: seq<World>, json: Json, s: System, down: map<nat, bool>, i: nat)
    requires RoundTrips(json) && Inv(ws, json, s) && i < |ws| && IsGit(s.now.app, i)
    requires MakePatch(s.now.app, AskOf(ws, down), json).Patch? && Answered(json, s.now.app, down)
    ensures Enabled(ws, s, Observe(s.now, down))
    ensures var a, b := s.now.app, Next(ws, json, s, Observe(s.now, down)).app;
            && b == a.(annotations := b.annotations) && OnLine(ws[i], b, i) && InStepAt(json, b, i)
            && (SourceAt(a, json, i).current != "" ==> GitNote(b, json, i) == SourceAt(a, json, i).current)
  {
    var e := Observe(s.now, down);
    InOrderIsSafe(ws, json, s, e);
    ObserveSource(ws, json, s, s.now, down, i);
    assert TrackedAt(ws, json, s.now, i);
    AnsweredUpdate(ws, json, s.now.app, down, i);
    NotedInStep(ws[i], s.now.app, json, i);
    var b := Next(ws, json, s, e).app;
    SameOnLine(s.now.app, b, i, ws[i]);
    SameInStep(s.now.app, b, i, GitNote(b, json, i));
  }

  /** The newest entries of b are those of this history, as far as b has any. */
  ghost predicate NewestFrom(b: Application, history: seq<HistoryEntry>) {
    && |b.history| <= |history|
    && (|b.history| >= 1 ==> b.history[|b.history| - 1] == history[|history| - 1])
    && (|b.history| >= 2 ==> b.history[|b.history| - 2] == history[|history| - 2])
  }

  /** Cutting a history short keeps its newest entries. */
  lemma KeepsNewest(b: Application, history: seq<HistoryEntry>)
    requires Keeps(b, history)
    ensures NewestFrom(b, history)
  {
    var limit: int :| b.history == Trunc(history, limit);
  }

  lemma EntryInStep(a: Application, b: Application, entry: HistoryEntry, git: string, i: nat)
    requires b.spec == a.spec && i < NumSources(a) && InStep(a, git, i) && a.operation.Some? && b.operation.None?
    requires OpRevision(a, i) == "" || RevisionIn(a, entry, i) == OpRevision(a, i)
    requires NewestFrom(b, a.history + [entry])
    ensures InStep(b, git, i)
  {
    var n := |b.history|;
    if n >= 2 {
      assert b.history[n - 1] == entry && b.history[n - 2] == a.history[|a.history| - 1];
    }
  }

  lemma FinishInStep(a: Application, b: Application, git: string, i: nat)
    requires b.spec == a.spec && i < NumSources(a) && IsGit(a, i) && InStep(a, git, i)
    requires a.operation.Some? && b.operation.None? && Finishes(a, b)
    ensures InStep(b, git, i)
  {
    var entry: HistoryEntry :| EntryFor(a, entry) && Keeps(b, a.history + [entry]);
    KeepsNewest(b, a.history + [entry]);
    EntryInStep(a, b, entry, git, i);
  }

  lemma NoEntryInStep(a: Application, b: Application, git: string, i: nat)
    requires b.spec == a.spec && i < NumSources(a) && InStep(a, git, i) && NewestFrom(b, a.history)
    requires || (b.operation == a.operation && (a.operation.Some? && SyncDone(b) ==> SyncDone(a)))
             || git == "" || a.history == [] || git == LastRevision(a, i)
    ensures InStep(b, git, i)
  {}

  /** And so does every change in order. */
  lemma ChangeInStep(json: Json, a: Application, b: Application, i: nat)
    requires i < NumSources(a) && IsGit(a, i) && InStepAt(json, a, i) && SameNotes(a, b) && InOrder(json, a, b)
    ensures InStepAt(json, b, i)
  {
    SameNotesRead(a, b, json, i);
    if a.operation.Some? && b.operation.None? && Finishes(a, b) {
      FinishInStep(a, b, GitNote(a, json, i), i);
    } else {
      KeepsNewest(b, a.history);
      NoEntryInStep(a, b, GitNote(a, json, i), i);
    }
  }

  /** Every event in order keeps the invariant, and is safe. */
  lemma InOrderStep(ws: seq<World>, json: Json, s: System, e: Event)
    requires RoundTrips(json) && Inv(ws, json, s) && Enabled(ws, s, e) && InOrderEvent(ws, json, s, e)
    ensures SafeEvent(ws, json, s, e) && Inv(ws, json, Apply(ws, json, s, e))
  {
    InOrderIsSafe(ws, json, s, e);
    StepTracks(ws, json, s, e);
    NextTracks(ws, json, s, e);
    var b := Next(ws, json, s, e).app;
    if e.Change? {
      forall i | 0 <= i < |ws| && IsGit(b, i)
        ensures InStepAt(json, b, i)
      {
        ChangeInStep(json, s.now.app, b, i);
      }
    } else if MakePatch(s.now.app, AskOf(ws, e.down), json).Patch? {
      forall i | 0 <= i < |ws| && IsGit(b, i)
        ensures OnLine(ws[i], b, i) && InStepAt(json, b, i)
      {
        ObserveInStep(ws, json, s, e.down, i);
      }
    }
  }

  lemma {:induction false} InOrderRunsAreSafe(ws: seq<World>, json: Json, s: System, events: seq<Event>)
    requires RoundTrips(json) && Inv(ws, json, s) && Run(ws, json, s, events) && InOrderRun(ws, json, s, events)
    ensures SafeRun(ws, json, s, events) && Inv(ws, json, After(ws, json, s, events))
    decreases |events|
  {
    if events != [] {
      InOrderStep(ws, json, s, events[0]);
      InOrderRunsAreSafe(ws, json, Apply(ws, json, s, events[0]), events[1..]);
    }
  }

  lemma NeverTimesOut(ws: seq<World>, json: Json, a: Application)
    requires HasSources(a) && |ws| == NumSources(a) && TextFrom(a.annotations, GeneratePaths) != ""
    ensures MakePatch(a, AskOf(ws, map[]), json).Patch?
  {
    assert forall i :: 0 <= i < NumSources(a) ==> !TimesOut(a, AskOf(ws, map[]), json, i);
  }

  /** Reconciling a finished sync notes the revision the source is synced to. */
  lemma CaughtUp(ws: seq<World>, json: Json, s: System, i: nat)
    requires RoundTrips(json) && Inv(ws, json, s) && i < |ws| && IsGit(s.now.app, i)
    requires var a := s.now.app;
             a.operation.None? && SyncDone(a) && TextFrom(a.annotations, GeneratePaths) != ""
    ensures Enabled(ws, s, Observe(s.now, map[]))
    ensures var a, b := s.now.app, Next(ws, json, s, Observe(s.now, map[])).app;
            && b == a.(annotations := b.annotations) && Caught(b, json, i)
            && (a.history != [] ==> GitNote(b, json, i) == LastRevision(a, i))
  {
    NeverTimesOut(ws, json, s.now.app);
    ObserveInStep(ws, json, s, map[], i);
    Views(s.now.app, json, i);
    SameEntries(s.now.app, Next(ws, json, s, Observe(s.now, map[])).app, i);
    if s.now.app.history != [] {
      Hashes(ws[i].commits, LastRevision(s.now.app, i));
    }
  }

  /** What a sync in order has to wait for is had by one reconciliation of the finished one before. */
  lemma ReconciledMayBegin(ws: seq<World>, json: Json, s: System)
    requires RoundTrips(json) && Inv(ws, json, s)
    requires var a := s.now.app;
             a.operation.None? && SyncDone(a) && TextFrom(a.annotations, GeneratePaths) != ""
    ensures Enabled(ws, s, Observe(s.now, map[]))
    ensures Reconciled(Next(ws, json, s, Observe(s.now, map[])).app, json)
  {
    var b := Next(ws, json, s, Observe(s.now, map[])).app;
    forall i | 0 <= i < NumSources(b) && IsGit(b, i)
      ensures Caught(b, json, i)
    {
      CaughtUp(ws, json, s, i);
    }
  }

  /**
   The program's claim for an application with any number of sources that is not annotated yet, over every run of
   syncs in order, forward or back, idle or drifting in between, however short its history is kept: once annotated,
   the change revision of a git source is a commit that touched the app or the last restart, and no later commit up
   to the noted revision touches it.
   */
  lemma TracksLastChange(ws: seq<World>, json: Json, start: Snapshot, events: seq<Event>)
    requires RoundTrips(json) && Fresh(ws, json, start)
    requires Run(ws, json, System(start, []), events) && InOrderRun(ws, json, System(start, []), events)
    ensures SafeRun(ws, json, System(start, []), events)
    ensures Tracks(ws, json, After(ws, json, System(start, []), events).now)
    ensures Inv(ws, json, After(ws, json, System(start, []), events))
  {
    assert Inv(ws, json, System(start, []));
    InOrderRunsAreSafe(ws, json, System(start, []), events);
  }

  // ---------------------------------------------------------------- what order is needed for

  /** A git application whose notes are about commit 0. */
  function NotedAtFirst(commits: seq<string>, json: Json, op: Option<Sync>, status: string, history: seq<HistoryEntry>)
    : Application
    requires |commits| >= 3
  {
    var sync := Sync(commits[2], [commits[2]]);
    Application(SingleSource(Source("", "repo", "path", "", "", "")),
                map[GeneratePaths := "."] + Record([commits[0]], [commits[0]], json),
                op, status, sync, Some(sync), history)
  }

  function EntryAt(commits: seq<string>, n: nat): HistoryEntry
    requires n < |commits|
  {
    HistoryEntry(commits[n], [Source("", "repo", "path", "", "", "")], [commits[n]])
  }

  /** Reconciled at commit 0 and since then synced twice to commit 2. */
  function SyncedTwiceUnseen(commits: seq<string>, json: Json): Application
    requires |commits| >= 3
  {
    NotedAtFirst(commits, json, None, "Synced", [EntryAt(commits, 0), EntryAt(commits, 2), EntryAt(commits, 2)])
  }

  /** Reconciled at commit 0, and the sync to commit 2 is in the history while its operation is still there. */
  function EntryBeforeEnd(commits: seq<string>, json: Json): Application
    requires |commits| >= 3
  {
    NotedAtFirst(commits, json, Some(Sync(commits[2], [commits[2]])), "OutOfSync",
                 [EntryAt(commits, 0), EntryAt(commits, 2)])
  }

  /** In both the controller sees a move from commit 2 to commit 2. */
  lemma NoMoveSeen(commits: seq<string>, json: Json, a: Application)
    requires |commits| >= 3 && (a == SyncedTwiceUnseen(commits, json) || a == EntryBeforeEnd(commits, json))
    ensures SourceAt(a, json, 0) == SourceRevisions(commits[0], commits[0], commits[2], commits[2], false)
    ensures TextFrom(a.annotations, GeneratePaths) != ""
  {
    assert TrimSpace("") == "";
  }

  /**
   With commit 1 touching, the next reconciliation lists commit 2 only, keeps commit 0 as change revision and notes
   commit 2: the change is missed, and reconciling again changes nothing.
   */
  lemma UnseenSyncMissesChange(commits: seq<string>, paths: seq<string>, json: Json, a: Application)
    returns (w: World)
    requires Line(commits) && |commits| >= 3 && paths != [] && RoundTrips(json)
    requires a == SyncedTwiceUnseen(commits, json) || a == EntryBeforeEnd(commits, json)
    ensures w.commits == commits && 1 in Touching(w)
    ensures NotesAccurate(w, ChangeNote(a, json, 0), GitNote(a, json, 0))
    ensures var b := Reconcile(a, AskOf([w], map[]), json);
            && NumSources(b) == 1 && ChangeNote(b, json, 0) == commits[0] && GitNote(b, json, 0) == commits[2]
            && !NotesAccurate(w, ChangeNote(b, json, 0), GitNote(b, json, 0))
            && Settled(b, AskOf([w], map[]), json)
  {
    var r := SourceAt(a, json, 0);
    NoMoveSeen(commits, json, a);
    w := WorldTouching(commits, paths, {1});
    TouchingAsGiven(commits, paths, {1});
    Hashes(commits, commits[0]);
    Hashes(commits, commits[2]);
    NewestIs(Touching(w), 2, 2);
    UpdateIsNextChange(w, r, 0, 2, 2);
    NotesOnLine(w, 0, 0);
    NotesOnLine(w, 0, 2);
    NeverTimesOut([w], json, a);
    RecordedAgain(a, AskOf([w], map[]), json, 0);
    OnePatchSettlesIff(a, AskOf([w], map[]), json);
  }
}
