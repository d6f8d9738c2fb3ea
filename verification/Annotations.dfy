/** The controller's reconciliation: from revisions and repo-server replies to a merge patch of four annotations. */
module Annotations {
  import opened Revisions

  /** JSON encoding of string arrays, known only by its contract. */
  datatype Json = Json(encode: seq<string> -> string, decode: string -> seq<string>)

  ghost predicate RoundTrips(json: Json) {
    forall xs: seq<string> {:trigger json.encode(xs)} ::
      json.decode(json.encode(xs)) == xs && TrimSpace(json.encode(xs)) != ""
  }

  /** What asking the repo server about a source yields. */
  datatype Reply = Found(revision: string) | Unanswered(timeout: bool)

  /** Replies by source index, current and previous revision. */
  type Ask = (nat, string, string) -> Reply

  datatype SourceRevisions = SourceRevisions(change: string, git: string, current: string, previous: string, helm: bool)

  function ArrayFrom(annotations: Notes, json: Json, key: Key): seq<string> {
    if key in annotations && TrimSpace(annotations[key]) != "" then json.decode(annotations[key]) else []
  }

  function TextFrom(annotations: Notes, key: Key): string {
    if key in annotations then annotations[key] else ""
  }

  ghost predicate HasSources(a: Application) {
    a.spec.MultiSource? ==> a.spec.sources != []
  }

  function NumSources(a: Application): nat {
    match a.spec case SingleSource(_) => 1 case MultiSource(sources) => |sources|
  }

  function SourceAt(a: Application, json: Json, i: nat): SourceRevisions
    requires i < NumSources(a)
  {
    match a.spec
    case SingleSource(source) =>
      var (current, previous) := SingleRevisions(a);
      SourceRevisions(TextFrom(a.annotations, ChangeRevision), TextFrom(a.annotations, GitRevision),
                      current, previous, TrimSpace(source.chart) != "")
    case MultiSource(sources) =>
      var (current, previous) := MultiRevisions(a, i);
      SourceRevisions(At(ArrayFrom(a.annotations, json, ChangeRevisions), i),
                      At(ArrayFrom(a.annotations, json, GitRevisions), i),
                      current, previous, TrimSpace(sources[i].chart) != "")
  }

  predicate AlreadyCalculated(r: SourceRevisions) {
    r.git != "" && r.git == r.current && r.change != ""
  }

  predicate MustAsk(r: SourceRevisions) {
    r.current != "" && !r.helm && !AlreadyCalculated(r)
  }

  /** New (change, git) revisions of a source. */
  function Update(r: SourceRevisions, reply: Reply): (string, string) {
    if r.current == "" then (r.change, r.git)
    else if r.helm then (r.git, r.current)
    else if AlreadyCalculated(r) then (r.change, r.current)
    else
      match reply
      case Unanswered(_) => (r.change, r.current)
      case Found(revision) =>
        if revision != "" then (revision, r.current)
        else (if r.change == "" then r.current else r.change, r.current)
  }

  function ReplyAt(a: Application, ask: Ask, json: Json, i: nat): Reply
    requires i < NumSources(a)
  {
    var r := SourceAt(a, json, i);
    ask(i, r.current, r.previous)
  }

  predicate TimesOut(a: Application, ask: Ask, json: Json, i: nat)
    requires i < NumSources(a)
  {
    MustAsk(SourceAt(a, json, i)) && ReplyAt(a, ask, json, i) == Unanswered(true)
  }

  /** New revisions of source i, as one reconciliation computes them. */
  function Updated(a: Application, ask: Ask, json: Json, i: nat): (string, string)
    requires i < NumSources(a)
  {
    Update(SourceAt(a, json, i), ReplyAt(a, ask, json, i))
  }

  function Changes(a: Application, ask: Ask, json: Json): seq<string> {
    seq(NumSources(a), i requires 0 <= i < NumSources(a) => Updated(a, ask, json, i).0)
  }

  function Gits(a: Application, ask: Ask, json: Json): seq<string> {
    seq(NumSources(a), i requires 0 <= i < NumSources(a) => Updated(a, ask, json, i).1)
  }

  function AddIfNeeded(patch: Notes, current: Notes, key: Key, val: string): Notes {
    if key !in current || current[key] != val then patch[key := val] else patch
  }

  function AnnotationPatch(current: Notes, changes: seq<string>, gits: seq<string>, json: Json): Notes
    requires changes != [] && gits != []
  {
    var p1 := AddIfNeeded(map[], current, ChangeRevision, changes[0]);
    var p2 := AddIfNeeded(p1, current, ChangeRevisions, json.encode(changes));
    var p3 := AddIfNeeded(p2, current, GitRevision, gits[0]);
    AddIfNeeded(p3, current, GitRevisions, json.encode(gits))
  }

  /** An empty patch means that nothing is sent. */
  datatype Outcome = Patch(annotations: Notes) | NotFetched | NoPaths | TimedOut

  function MakePatch(a: Application, ask: Ask, json: Json): Outcome
    requires HasSources(a)
  {
    if TextFrom(a.annotations, GeneratePaths) == "" then NoPaths
    else if exists i :: 0 <= i < NumSources(a) && TimesOut(a, ask, json, i) then TimedOut
    else Patch(AnnotationPatch(a.annotations, Changes(a, ask, json), Gits(a, ask, json), json))
  }

  /** The body of the program's loop: one source, asking the repo server only when needed. */
  method ProcessSource(i: nat, s: SourceRevisions, ask: Ask) returns (change: string, git: string, timedOut: bool)
    ensures timedOut <==> MustAsk(s) && ask(i, s.current, s.previous) == Unanswered(true)
    ensures !timedOut ==> (change, git) == Update(s, ask(i, s.current, s.previous))
  {
    change, git, timedOut := s.change, s.current, false;
    if s.current == "" {
      git := s.git;
      return;
    }
    if s.helm {
      change := s.git;
      return;
    }
    if s.git != "" && s.git == s.current && s.change != "" {
      return;
    }
    var reply := ask(i, s.current, s.previous);
    if reply.Unanswered? {
      timedOut := reply.timeout;
    } else if reply.revision == "" {
      if s.change == "" {
        change := s.current;
      }
    } else if change != reply.revision {
      change := reply.revision;
    }
  }

  method ProcessSourceAt(a: Application, ask: Ask, json: Json, i: nat)
    returns (change: string, git: string, timedOut: bool)
    requires i < NumSources(a)
    ensures timedOut <==> TimesOut(a, ask, json, i)
    ensures !timedOut ==> (change, git) == Updated(a, ask, json, i)
  {
    var source := SourceAt(a, json, i);
    change, git, timedOut := ProcessSource(i, source, ask);
  }

  /** The program's loop over the sources; it gives up at the first timeout. */
  method ProcessSources(a: Application, ask: Ask, json: Json)
    returns (done: bool, changes: seq<string>, gits: seq<string>)
    ensures done <==> forall i :: 0 <= i < NumSources(a) ==> !TimesOut(a, ask, json, i)
    ensures done ==> changes == Changes(a, ask, json) && gits == Gits(a, ask, json)
  {
    hide Updated;
    hide TimesOut;
    changes, gits := [], [];
    for i := 0 to NumSources(a)
      invariant |changes| == |gits| == i
      invariant forall j :: 0 <= j < i ==> !TimesOut(a, ask, json, j)
      invariant forall j :: 0 <= j < i ==> (changes[j], gits[j]) == Updated(a, ask, json, j)
    {
      var change, git, timedOut := ProcessSourceAt(a, ask, json, i);
      if timedOut {
        assert TimesOut(a, ask, json, i);
        return false, [], [];
      }
      changes, gits := changes + [change], gits + [git];
    }
    done := true;
  }

  /** The annotation that names the paths whose changes matter is there and not empty. */
  predicate NamesPaths(a: Application) {
    GeneratePaths in a.annotations && a.annotations[GeneratePaths] != ""
  }

  /** `fetched` tells whether reading the application again from the cluster, the first thing done, succeeds. */
  method MakeChangeRevisionPatch(a: Application, fetched: bool, ask: Ask, json: Json) returns (r: Outcome)
    requires HasSources(a)
    ensures r == if fetched then MakePatch(a, ask, json) else NotFetched
    ensures r == NotFetched <==> !fetched
    ensures r == NoPaths <==> fetched && !NamesPaths(a)
    ensures r == TimedOut <==>
              fetched && NamesPaths(a) &&
              exists i :: 0 <= i < NumSources(a) &&
                var s := SourceAt(a, json, i); MustAsk(s) && ask(i, s.current, s.previous) == Unanswered(true)
  {
    if !fetched {
      return NotFetched;
    }
    if TextFrom(a.annotations, GeneratePaths) == "" {
      return NoPaths;
    }
    var done, changes, gits := ProcessSources(a, ask, json);
    assert forall i :: 0 <= i < NumSources(a) ==>
             (TimesOut(a, ask, json, i) <==>
                var s := SourceAt(a, json, i); MustAsk(s) && ask(i, s.current, s.previous) == Unanswered(true));
    if !done {
      return TimedOut;
    }
    r := Patch(AnnotationPatch(a.annotations, changes, gits, json));
  }

  /** The patch applied to the annotations it was made for, as section 2 of RFC 7396 merges string members. */
  function Reconcile(a: Application, ask: Ask, json: Json): Application
    requires HasSources(a)
  {
    match MakePatch(a, ask, json)
    case Patch(p) => a.(annotations := a.annotations + p)
    case _ => a
  }

  // ---------------------------------------------------------------- what is left alone

  /** An application that names no paths is not touched. */
  lemma NoPathsNoChange(a: Application, ask: Ask, json: Json)
    requires HasSources(a)
    ensures MakePatch(a, ask, json) == NoPaths <==> !NamesPaths(a)
    ensures !NamesPaths(a) ==> Reconcile(a, ask, json) == a
  {}

  function ChartOf(a: Application, i: nat): string
    requires i < NumSources(a)
  {
    match a.spec case SingleSource(source) => source.chart case MultiSource(sources) => sources[i].chart
  }

  /** A source with a chart is never asked about: the replies make no difference to it, and cannot time out. */
  lemma HelmNeverAsked(a: Application, ask: Ask, other: Ask, json: Json, i: nat)
    requires i < NumSources(a) && TrimSpace(ChartOf(a, i)) != ""
    ensures !TimesOut(a, ask, json, i) && Updated(a, ask, json, i) == Updated(a, other, json, i)
    ensures var r := SourceAt(a, json, i);
            r.current != "" ==> Updated(a, ask, json, i) == (r.git, r.current)
  {}

  /** And one without is asked about whenever its revision is known but not noted, or no change revision is. */
  lemma GitAskedIff(a: Application, json: Json, i: nat)
    requires i < NumSources(a) && TrimSpace(ChartOf(a, i)) == ""
    ensures var r := SourceAt(a, json, i);
            MustAsk(r) <==> r.current != "" && (r.change == "" || r.git != r.current)
  {}

  /** An idle application that is not in sync has no current revision, and keeps its notes whatever is replied. */
  lemma OutOfSyncLeftAlone(a: Application, ask: Ask, json: Json, i: nat)
    requires i < NumSources(a) && a.operation.None? && a.syncStatus != "Synced"
    ensures var r := SourceAt(a, json, i);
            r.current == "" && !TimesOut(a, ask, json, i) && Updated(a, ask, json, i) == (r.change, r.git)
  {}

  /** A source without a call that was not answered: it is asked about again exactly if it has no change revision. */
  lemma UnansweredAskedAgainIff(r: SourceRevisions, timeout: bool)
    requires MustAsk(r)
    ensures var (change, git) := Update(r, Unanswered(timeout));
            change == r.change && git == r.current
            && (MustAsk(r.(change := change, git := git)) <==> r.change == "")
  {}

  /** A blank array annotation counts as none. */
  lemma BlankReadsAsNone(a: Application, json: Json, i: nat)
    requires a.spec.MultiSource? && i < |a.spec.sources|
    requires forall k :: k in {ChangeRevisions, GitRevisions} && k in a.annotations ==>
               TrimSpace(a.annotations[k]) == ""
    ensures SourceAt(a, json, i).change == "" && SourceAt(a, json, i).git == ""
  {}

  // ---------------------------------------------------------------- what a patch changes

  function Record(changes: seq<string>, gits: seq<string>, json: Json): Notes
    requires changes != [] && gits != []
  {
    map[ChangeRevision := changes[0], ChangeRevisions := json.encode(changes),
        GitRevision := gits[0], GitRevisions := json.encode(gits)]
  }

  /** The patch p holds exactly those entries of r that `current` does not hold already. */
  ghost predicate Records(p: Notes, current: Notes, r: Notes) {
    forall k :: (k in p <==> k in r && (k !in current || current[k] != r[k])) && (k in p ==> p[k] == r[k])
  }

  lemma AddRecords(p: Notes, current: Notes, r: Notes, key: Key, val: string)
    requires Records(p, current, r) && key !in r
    ensures Records(AddIfNeeded(p, current, key, val), current, r[key := val])
  {
    var q := AddIfNeeded(p, current, key, val);
    forall k
      ensures (k in q <==> k in r[key := val] && (k !in current || current[k] != r[key := val][k]))
      ensures k in q ==> q[k] == r[key := val][k]
    {
      assert k in p <==> k in r && (k !in current || current[k] != r[k]);
    }
  }

  /** So merging p is merging r. */
  lemma RecordsMerge(p: Notes, current: Notes, r: Notes)
    requires Records(p, current, r)
    ensures current + p == current + r
  {}

  lemma MergeRecords(current: Notes, changes: seq<string>, gits: seq<string>, json: Json)
    requires changes != [] && gits != []
    ensures var p, r := AnnotationPatch(current, changes, gits, json), Record(changes, gits, json);
            Records(p, current, r) && current + p == current + r
  {
    var r1 := map[ChangeRevision := changes[0]];
    var p1 := AddIfNeeded(map[], current, ChangeRevision, changes[0]);
    AddRecords(map[], current, map[], ChangeRevision, changes[0]);
    var r2, p2 := r1[ChangeRevisions := json.encode(changes)],
                  AddIfNeeded(p1, current, ChangeRevisions, json.encode(changes));
    AddRecords(p1, current, r1, ChangeRevisions, json.encode(changes));
    var r3, p3 := r2[GitRevision := gits[0]], AddIfNeeded(p2, current, GitRevision, gits[0]);
    AddRecords(p2, current, r2, GitRevision, gits[0]);
    AddRecords(p3, current, r3, GitRevisions, json.encode(gits));
    assert r3[GitRevisions := json.encode(gits)] == Record(changes, gits, json);
    RecordsMerge(AnnotationPatch(current, changes, gits, json), current, Record(changes, gits, json));
  }

  /** What the copy already holds as in r, the cluster holds as well. */
  ghost predicate StillRight(copy: Notes, cluster: Notes, r: Notes) {
    forall k :: k in r && k in copy && copy[k] == r[k] ==> k in cluster && cluster[k] == r[k]
  }

  /**
   The patch is made from the queued copy and merged into whatever the cluster holds by then. It records all four
   values exactly when those it leaves out, because the copy has them already, are still there.
   */
  lemma StaleMergeRecordsIff(copy: Notes, cluster: Notes, changes: seq<string>, gits: seq<string>, json: Json)
    requires changes != [] && gits != []
    ensures var p, r := AnnotationPatch(copy, changes, gits, json), Record(changes, gits, json);
            cluster + p == cluster + r <==> StillRight(copy, cluster, r)
  {
    var p, r := AnnotationPatch(copy, changes, gits, json), Record(changes, gits, json);
    MergeRecords(copy, changes, gits, json);
    if cluster + p == cluster + r {
      forall k | k in r && k in copy && copy[k] == r[k]
        ensures k in cluster && cluster[k] == r[k]
      {
        assert k !in p && k in cluster + r;
      }
    }
  }

  /** What a reconciliation computes for the four keys. */
  function RecordOf(a: Application, ask: Ask, json: Json): Notes
    requires HasSources(a)
  {
    Record(Changes(a, ask, json), Gits(a, ask, json), json)
  }

  /** The same notes but for the four keys the controller writes. */
  ghost predicate SameElsewhere(before: Notes, after: Notes) {
    forall k :: k !in {ChangeRevision, ChangeRevisions, GitRevision, GitRevisions} ==>
      (k in before <==> k in after) && (k in before ==> before[k] == after[k])
  }

  lemma RecordReadsBack(current: Notes, changes: seq<string>, gits: seq<string>, json: Json)
    requires changes != [] && gits != [] && RoundTrips(json)
    ensures var notes := current + Record(changes, gits, json);
            && SameElsewhere(current, notes)
            && ArrayFrom(notes, json, ChangeRevisions) == changes && ArrayFrom(notes, json, GitRevisions) == gits
            && TextFrom(notes, ChangeRevision) == changes[0] && TextFrom(notes, GitRevision) == gits[0]
  {}

  lemma ReconcileMerges(a: Application, ask: Ask, json: Json)
    requires HasSources(a) && MakePatch(a, ask, json).Patch?
    ensures Reconcile(a, ask, json) ==
            a.(annotations := a.annotations + Record(Changes(a, ask, json), Gits(a, ask, json), json))
  {
    MergeRecords(a.annotations, Changes(a, ask, json), Gits(a, ask, json), json);
  }

  /** A reconciliation touches four keys only, and leaves each single value equal to element 0 of its array. */
  lemma ReconcileRecords(a: Application, ask: Ask, json: Json)
    requires HasSources(a) && RoundTrips(json) && MakePatch(a, ask, json).Patch?
    ensures var b := Reconcile(a, ask, json);
            && b == a.(annotations := b.annotations) && SameElsewhere(a.annotations, b.annotations)
            && ArrayFrom(b.annotations, json, ChangeRevisions) == Changes(a, ask, json)
            && ArrayFrom(b.annotations, json, GitRevisions) == Gits(a, ask, json)
            && TextFrom(b.annotations, ChangeRevision) == Changes(a, ask, json)[0]
            && TextFrom(b.annotations, GitRevision) == Gits(a, ask, json)[0]
  {
    ReconcileMerges(a, ask, json);
    RecordReadsBack(a.annotations, Changes(a, ask, json), Gits(a, ask, json), json);
  }

  // ---------------------------------------------------------------- convergence

  lemma SameStatus(a: Application, notes: Notes, i: nat)
    ensures SingleRevisions(a.(annotations := notes)) == SingleRevisions(a)
    ensures a.spec.MultiSource? && i < |a.spec.sources| ==>
              MultiRevisions(a.(annotations := notes), i) == MultiRevisions(a, i)
  {}

  /** A source as read from other notes: only change and git revision differ. */
  lemma SourceFromNotes(a: Application, notes: Notes, json: Json, i: nat)
    requires i < NumSources(a)
    ensures var b := a.(annotations := notes);
            SourceAt(b, json, i) ==
            SourceAt(a, json, i).(
              change := if a.spec.SingleSource? then TextFrom(notes, ChangeRevision)
                        else At(ArrayFrom(notes, json, ChangeRevisions), i),
              git := if a.spec.SingleSource? then TextFrom(notes, GitRevision)
                     else At(ArrayFrom(notes, json, GitRevisions), i))
  {
    SameStatus(a, notes, i);
  }

  /** Notes that hold these revisions in both forms are read back as such. */
  lemma SourceFromRecord(a: Application, notes: Notes, changes: seq<string>, gits: seq<string>, json: Json, i: nat)
    requires i < NumSources(a) == |changes| == |gits|
    requires ArrayFrom(notes, json, ChangeRevisions) == changes && ArrayFrom(notes, json, GitRevisions) == gits
    requires TextFrom(notes, ChangeRevision) == changes[0] && TextFrom(notes, GitRevision) == gits[0]
    ensures SourceAt(a.(annotations := notes), json, i) ==
            SourceAt(a, json, i).(change := changes[i], git := gits[i])
  {
    SourceFromNotes(a, notes, json, i);
  }

  /** The next reconciliation reads back exactly what the last one recorded. */
  lemma ReadsBack(a: Application, ask: Ask, json: Json, i: nat)
    requires HasSources(a) && RoundTrips(json) && MakePatch(a, ask, json).Patch? && i < NumSources(a)
    ensures var b := Reconcile(a, ask, json);
            && b == a.(annotations := b.annotations)
            && SourceAt(b, json, i) ==
               SourceAt(a, json, i).(change := Changes(a, ask, json)[i], git := Gits(a, ask, json)[i])
  {
    ReconcileRecords(a, ask, json);
    var notes := Reconcile(a, ask, json).annotations;
    SourceFromRecord(a, notes, Changes(a, ask, json), Gits(a, ask, json), json, i);
  }

  lemma RecordedAgain(a: Application, ask: Ask, json: Json, i: nat)
    requires HasSources(a) && RoundTrips(json) && MakePatch(a, ask, json).Patch? && i < NumSources(a)
    ensures var b, r := Reconcile(a, ask, json), SourceAt(a, json, i);
            var (change, git) := Updated(a, ask, json, i);
            && NumSources(b) == NumSources(a) && ReplyAt(b, ask, json, i) == ReplyAt(a, ask, json, i)
            && SourceAt(b, json, i) == r.(change := change, git := git)
  {
    ReadsBack(a, ask, json, i);
  }

  lemma StillPatches(a: Application, ask: Ask, json: Json)
    requires HasSources(a) && RoundTrips(json) && MakePatch(a, ask, json).Patch?
    ensures HasSources(Reconcile(a, ask, json)) && MakePatch(Reconcile(a, ask, json), ask, json).Patch?
  {
    var b := Reconcile(a, ask, json);
    ReconcileRecords(a, ask, json);
    forall i | 0 <= i < NumSources(b)
      ensures !TimesOut(b, ask, json, i)
    {
      RecordedAgain(a, ask, json, i);
      assert !TimesOut(a, ask, json, i);
    }
  }

  ghost predicate Settled(a: Application, ask: Ask, json: Json) {
    HasSources(a) && MakePatch(a, ask, json) == Patch(map[])
  }

  /** Nothing is left to patch exactly when recording again would record the same. */
  lemma SettledIffSameRecord(a: Application, ask: Ask, json: Json)
    requires HasSources(a) && RoundTrips(json) && MakePatch(a, ask, json).Patch?
    ensures var b := Reconcile(a, ask, json);
            Settled(b, ask, json) <==>
            Changes(b, ask, json) == Changes(a, ask, json) && Gits(b, ask, json) == Gits(a, ask, json)
  {
    var b := Reconcile(a, ask, json);
    var changes, gits := Changes(b, ask, json), Gits(b, ask, json);
    StillPatches(a, ask, json);
    ReconcileRecords(a, ask, json);
    MergeRecords(a.annotations, Changes(a, ask, json), Gits(a, ask, json), json);
    MergeRecords(b.annotations, changes, gits, json);
    assert b.annotations == a.annotations + Record(Changes(a, ask, json), Gits(a, ask, json), json);
    if Settled(b, ask, json) {
      var p := MakePatch(b, ask, json).annotations;
      assert ChangeRevisions !in p && GitRevisions !in p;
      assert json.decode(json.encode(changes)) == changes && json.decode(json.encode(gits)) == gits;
    }
  }

  /** A Helm source whose version is not the recorded git revision. */
  predicate HelmMoved(r: SourceRevisions) {
    r.helm && r.current != "" && r.git != r.current
  }

  /** Updating again changes nothing exactly for the other sources: Helm's change revision follows a patch later. */
  lemma SameUpdateIff(r: SourceRevisions, reply: Reply)
    ensures var (change, git) := Update(r, reply);
            Update(r.(change := change, git := git), reply) == (change, git) <==> !HelmMoved(r)
  {}

  /**
   With status and replies fixed, one patch is enough exactly when no Helm source has moved to another version
   since its git revision was recorded; in particular whenever all sources are git sources.
   */
  lemma OnePatchSettlesIff(a: Application, ask: Ask, json: Json)
    requires HasSources(a) && RoundTrips(json) && MakePatch(a, ask, json).Patch?
    ensures Settled(Reconcile(a, ask, json), ask, json)
            <==> forall i :: 0 <= i < NumSources(a) ==> !HelmMoved(SourceAt(a, json, i))
  {
    var b := Reconcile(a, ask, json);
    StillPatches(a, ask, json);
    RecordedAgain(a, ask, json, 0);
    forall i | 0 <= i < NumSources(a)
      ensures !HelmMoved(SourceAt(a, json, i)) <==>
              (Changes(a, ask, json)[i], Gits(a, ask, json)[i]) == (Changes(b, ask, json)[i], Gits(b, ask, json)[i])
    {
      RecordedAgain(a, ask, json, i);
      SameUpdateIff(SourceAt(a, json, i), ReplyAt(a, ask, json, i));
    }
    SettledIffSameRecord(a, ask, json);
  }

  /** With any sources, two patches are enough. */
  lemma Converges(a: Application, ask: Ask, json: Json)
    requires HasSources(a) && RoundTrips(json) && MakePatch(a, ask, json).Patch?
    ensures HasSources(Reconcile(a, ask, json))
    ensures Settled(Reconcile(Reconcile(a, ask, json), ask, json), ask, json)
  {
    var b := Reconcile(a, ask, json);
    StillPatches(a, ask, json);
    RecordedAgain(a, ask, json, 0);
    forall i | 0 <= i < NumSources(b)
      ensures !HelmMoved(SourceAt(b, json, i))
    {
      RecordedAgain(a, ask, json, i);
    }
    OnePatchSettlesIff(b, ask, json);
  }
}
