/** Reading the current and previous revision of each source out of an application's status and history. */
module Revisions {
  import opened Wrappers

  /** The annotation keys this controller reads or writes, and all others. */
  datatype Key = ChangeRevision | ChangeRevisions | GitRevision | GitRevisions | GeneratePaths | Other(name: string)

  function NameOf(key: Key): string {
    match key
    case ChangeRevision => "mrp-controller.argoproj.io/change-revision"
    case ChangeRevisions => "mrp-controller.argoproj.io/change-revisions"
    case GitRevision => "mrp-controller.argoproj.io/git-revision"
    case GitRevisions => "mrp-controller.argoproj.io/git-revisions"
    case GeneratePaths => "argocd.argoproj.io/manifest-generate-paths"
    case Other(name) => name
  }

  /** The controller's keys have different names, so a map by key is a map by name. */
  lemma NamesDiffer(k: Key, l: Key)
    requires k != l && !k.Other? && !l.Other?
    ensures NameOf(k) != NameOf(l)
  {
    assert "argocd.argoproj.io/manifest-generate-paths"[0] == 'a';
    assert "mrp-controller.argoproj.io/change-revision"[0] == 'm';
    assert |NameOf(ChangeRevision)| == 42 && |NameOf(ChangeRevisions)| == 43;
    assert |NameOf(GitRevision)| == 39 && |NameOf(GitRevisions)| == 40;
  }

  /** All but the one that names the paths are in the controller's own domain, the arrays named as plurals. */
  lemma NamesByDomain()
    ensures NameOf(ChangeRevisions) == NameOf(ChangeRevision) + "s" && NameOf(GitRevisions) == NameOf(GitRevision) + "s"
    ensures NameOf(ChangeRevision) == "mrp-controller.argoproj.io/" + "change-revision"
    ensures NameOf(GitRevision) == "mrp-controller.argoproj.io/" + "git-revision"
    ensures NameOf(GeneratePaths) == "argocd.argoproj.io/" + "manifest-generate-paths"
  {}

  type Notes = map<Key, string>

  datatype Source = Source(
    name: string, repoURL: string, path: string, chart: string, ref: string, targetRevision: string)

  /** Revisions named by a sync operation or its result: one for single-source apps, a list for the others. */
  datatype Sync = Sync(revision: string, revisions: seq<string>)

  datatype HistoryEntry = HistoryEntry(revision: string, sources: seq<Source>, revisions: seq<string>)

  datatype Spec = SingleSource(source: Source) | MultiSource(sources: seq<Source>)

  /** `operation` is present when a sync operation is, `result` when the operation state carries a sync result. */
  datatype Application = Application(
    spec: Spec, annotations: Notes,
    operation: Option<Sync>, syncStatus: string, synced: Sync, result: Option<Sync>, history: seq<HistoryEntry>)

  function At(revisions: seq<string>, i: int): string {
    if 0 <= i < |revisions| then revisions[i] else ""
  }

  predicate IsSpace(c: char) {
    var n := c as int;
    9 <= n <= 13 || n == 32 || n == 0x85 || n == 0xA0 || n == 0x1680 || 0x2000 <= n <= 0x200A
    || n == 0x2028 || n == 0x2029 || n == 0x202F || n == 0x205F || n == 0x3000
  }

  function TrimSpace(s: string): string {
    if s == "" then s
    else if IsSpace(s[0]) then TrimSpace(s[1..])
    else if IsSpace(s[|s| - 1]) then TrimSpace(s[..|s| - 1])
    else s
  }

  predicate SameTarget(a: string, b: string) {
    a == b || (a == "" && b == "HEAD") || (a == "HEAD" && b == "")
  }

  predicate Matches(a: Source, b: Source) {
    || (a.name != "" && b.name != "" && TrimSpace(a.name) != "" && TrimSpace(a.name) == TrimSpace(b.name))
    || (a.repoURL == b.repoURL && a.path == b.path && a.chart == b.chart && a.ref == b.ref
        && SameTarget(a.targetRevision, b.targetRevision))
  }

  /** The white space of Unicode. */
  lemma IsSpaceIff(c: char)
    ensures IsSpace(c) <==>
            c as int in {0x9, 0xA, 0xB, 0xC, 0xD, 0x20, 0x85, 0xA0, 0x1680, 0x2000, 0x2001, 0x2002, 0x2003, 0x2004,
                         0x2005, 0x2006, 0x2007, 0x2008, 0x2009, 0x200A, 0x2028, 0x2029, 0x202F, 0x205F, 0x3000}
  {}

  predicate AllSpace(s: string) {
    forall i :: 0 <= i < |s| ==> IsSpace(s[i])
  }

  /** s is t with white space around it. */
  predicate Surrounded(s: string, before: string, t: string, after: string) {
    s == before + t + after && AllSpace(before) && AllSpace(after)
  }

  lemma SpaceInFront(c: char, s: string, before: string, t: string, after: string)
    requires IsSpace(c) && Surrounded(s, before, t, after)
    ensures Surrounded([c] + s, [c] + before, t, after)
  {
    assert [c] + s == ([c] + before) + t + after;
  }

  lemma SpaceBehind(c: char, s: string, before: string, t: string, after: string)
    requires IsSpace(c) && Surrounded(s, before, t, after)
    ensures Surrounded(s + [c], before, t, after + [c])
  {
    assert s + [c] == before + t + (after + [c]);
  }

  /** Trimming takes white space off both ends, all of it and nothing else. */
  lemma {:induction false} TrimSpaceIs(s: string) returns (before: string, after: string)
    ensures Surrounded(s, before, TrimSpace(s), after)
    ensures var t := TrimSpace(s); t != "" ==> !IsSpace(t[0]) && !IsSpace(t[|t| - 1])
    decreases |s|
  {
    hide IsSpace;
    hide Surrounded;
    var n := |s| - 1;
    if s != "" && IsSpace(s[0]) {
      before, after := TrimSpaceIs(s[1..]);
      SpaceInFront(s[0], s[1..], before, TrimSpace(s), after);
      assert s == [s[0]] + s[1..];
      before := [s[0]] + before;
    } else if s != "" && IsSpace(s[n]) {
      before, after := TrimSpaceIs(s[..n]);
      SpaceBehind(s[n], s[..n], before, TrimSpace(s), after);
      assert s == s[..n] + [s[n]];
      after := after + [s[n]];
    } else {
      NothingAround(s);
      before, after := "", "";
    }
  }

  lemma NothingAround(s: string)
    ensures Surrounded(s, "", s, "")
  {
    assert s == "" + s + "";
  }

  /** Index of the first matching source, -1 if there is none. */
  function FirstMatch(sources: seq<Source>, src: Source): (i: int)
    ensures -1 <= i < |sources|
    ensures i >= 0 ==> Matches(sources[i], src)
    ensures forall j :: 0 <= j < (if i < 0 then |sources| else i) ==> !Matches(sources[j], src)
  {
    if sources == [] then -1
    else if Matches(sources[0], src) then 0
    else var i := FirstMatch(sources[1..], src); if i < 0 then -1 else i + 1
  }

  /** The source at the same position if it matches, else the first one that does. */
  function MatchingIndex(sources: seq<Source>, src: Source, at: nat): int {
    if at < |sources| && Matches(sources[at], src) then at else FirstMatch(sources, src)
  }

  function FromHistory(entry: HistoryEntry, src: Source, at: nat): string {
    At(entry.revisions, MatchingIndex(entry.sources, src, at))
  }

  /** The revision a source tracks: none means the head. */
  function Target(src: Source): string {
    if src.targetRevision == "" then "HEAD" else src.targetRevision
  }

  /** When the one source of an entry is taken for a source of the application, in terms of their fields. */
  lemma FoundIffSameSource(past: Source, revision: string, src: Source, at: nat)
    ensures FromHistory(HistoryEntry("", [past], [revision]), src, at) ==
            if || (TrimSpace(past.name) == TrimSpace(src.name) && TrimSpace(src.name) != "")
               || (past.repoURL == src.repoURL && past.path == src.path && past.chart == src.chart
                   && past.ref == src.ref && Target(past) == Target(src))
            then revision else ""
  {
    assert TrimSpace("") == "";
    var entry := HistoryEntry("", [past], [revision]);
    assert MatchingIndex(entry.sources, src, at) == if Matches(past, src) then 0 else -1;
  }

  /** So an unnamed source that changed any one of these fields finds nothing, whatever the others are. */
  lemma ChangedSourceFindsNothing(past: Source, revision: string, src: Source, at: nat)
    requires TrimSpace(src.name) == ""
    requires || past.repoURL != src.repoURL || past.path != src.path || past.chart != src.chart
             || past.ref != src.ref || Target(past) != Target(src)
    ensures FromHistory(HistoryEntry("", [past], [revision]), src, at) == ""
  {
    FoundIffSameSource(past, revision, src, at);
  }

  /** Revisions that are not there read as empty. */
  lemma MissingReadsEmpty(revisions: seq<string>, i: int)
    ensures At(revisions, i) != "" ==> 0 <= i < |revisions| && At(revisions, i) in revisions
    ensures 0 <= i < |revisions| ==> revisions[..i] + [At(revisions, i)] + revisions[i + 1..] == revisions
  {}

  /** The search loop of the program. */
  method GetRevisionFromHistory(entry: HistoryEntry, src: Source, at: nat) returns (revision: string)
    ensures revision == FromHistory(entry, src, at)
  {
    var index: int := at;
    if at >= |entry.sources| || !Matches(entry.sources[at], src) {
      index := -1;
      var i := 0;
      while i < |entry.sources|
        invariant 0 <= i <= |entry.sources| && index == -1
        invariant forall j :: 0 <= j < i ==> !Matches(entry.sources[j], src)
      {
        if Matches(entry.sources[i], src) {
          index := i;
          break;
        }
        i := i + 1;
      }
    }
    if index >= 0 {
      return At(entry.revisions, index);
    }
    revision := "";
  }

  function FirstSyncRevision(a: Application): string {
    if a.operation.Some? then a.operation.value.revision
    else if a.syncStatus == "Synced" then a.synced.revision
    else ""
  }

  function FirstSyncRevisionAt(a: Application, i: nat): string {
    if a.operation.Some? then At(a.operation.value.revisions, i)
    else if a.syncStatus == "Synced" then At(a.synced.revisions, i)
    else ""
  }

  predicate SyncDone(a: Application) {
    a.syncStatus == "Synced" && a.result.Some?
  }

  /** (current, previous) of a single-source application. */
  function SingleRevisions(a: Application): (string, string) {
    var n := |a.history|;
    if n == 0 then (FirstSyncRevision(a), "")
    else if SyncDone(a) then (a.result.value.revision, if n == 1 then "" else a.history[n - 2].revision)
    else (FirstSyncRevision(a), a.history[n - 1].revision)
  }

  /** (current, previous) of source i of a multi-source application. */
  function MultiRevisions(a: Application, i: nat): (string, string)
    requires a.spec.MultiSource? && i < |a.spec.sources|
  {
    var n, src := |a.history|, a.spec.sources[i];
    if n == 0 then (FirstSyncRevisionAt(a, i), "")
    else if SyncDone(a) then
      (At(a.result.value.revisions, i), if n == 1 then "" else FromHistory(a.history[n - 2], src, i))
    else (FirstSyncRevisionAt(a, i), FromHistory(a.history[n - 1], src, i))
  }

  // ---------------------------------------------------------------- the same sync seen twice

  /** The application while a sync runs: its operation, with the history so far. */
  ghost predicate InProgress(a: Application, op: Sync) {
    a.operation == Some(op) && !SyncDone(a)
  }

  /** The same application once that sync is done: its result, with one more history entry. */
  ghost predicate Completed(b: Application, a: Application, op: Sync, entry: HistoryEntry) {
    b.spec == a.spec && SyncDone(b) && b.result == Some(op) && b.history == a.history + [entry]
  }

  /** Whether a sync is observed while running or when done makes no difference to the revisions read. */
  lemma ViewsAgree(a: Application, b: Application, op: Sync, entry: HistoryEntry)
    requires InProgress(a, op) && Completed(b, a, op, entry)
    ensures SingleRevisions(a) == SingleRevisions(b)
    ensures a.spec.MultiSource? ==>
              forall i {:trigger MultiRevisions(a, i)} :: 0 <= i < |a.spec.sources| ==>
                MultiRevisions(a, i) == MultiRevisions(b, i)
  {
    var n := |a.history|;
    if n > 0 {
      assert b.history[n - 1] == a.history[n - 1];
    }
  }

  // ---------------------------------------------------------------- reordered sources

  function Pairs(entry: HistoryEntry): seq<(Source, string)>
    requires |entry.sources| == |entry.revisions|
  {
    seq(|entry.sources|, i requires 0 <= i < |entry.sources| => (entry.sources[i], entry.revisions[i]))
  }

  /** The same sources and revisions in another order. */
  ghost predicate Reordered(a: HistoryEntry, b: HistoryEntry) {
    && |a.sources| == |a.revisions| && |b.sources| == |b.revisions|
    && multiset(Pairs(a)) == multiset(Pairs(b))
  }

  /** All entries that could be taken for this source carry one revision. */
  ghost predicate Unambiguous(entry: HistoryEntry, src: Source)
    requires |entry.sources| == |entry.revisions|
  {
    forall p, q :: p in Pairs(entry) && q in Pairs(entry) && Matches(p.0, src) && Matches(q.0, src) ==> p.1 == q.1
  }

  lemma FoundInPairs(entry: HistoryEntry, src: Source, at: nat)
    requires |entry.sources| == |entry.revisions|
    ensures var r := FromHistory(entry, src, at);
            (exists p :: p in Pairs(entry) && Matches(p.0, src) && p.1 == r)
            || (r == "" && forall p :: p in Pairs(entry) ==> !Matches(p.0, src))
  {
    var i := MatchingIndex(entry.sources, src, at);
    if i >= 0 {
      assert Pairs(entry)[i] in Pairs(entry);
    }
  }

  lemma SameMembers(a: HistoryEntry, b: HistoryEntry, p: (Source, string))
    requires Reordered(a, b)
    ensures p in Pairs(a) <==> p in Pairs(b)
  {
    assert p in Pairs(a) <==> p in multiset(Pairs(a));
    assert p in Pairs(b) <==> p in multiset(Pairs(b));
  }

  function Swap<T>(s: seq<T>, i: nat, j: nat): seq<T>
    requires i < |s| && j < |s|
  {
    s[i := s[j]][j := s[i]]
  }

  lemma {:induction false} SwapPermutes<T>(s: seq<T>, i: nat, j: nat)
    requires i < |s| && j < |s|
    ensures multiset(Swap(s, i, j)) == multiset(s)
  {
    assert multiset(s[i := s[j]]) == multiset(s) - multiset{s[i]} + multiset{s[j]};
  }

  function SwapEntry(entry: HistoryEntry, i: nat, j: nat): HistoryEntry
    requires i < |entry.sources| == |entry.revisions| && j < |entry.sources|
  {
    HistoryEntry(entry.revision, Swap(entry.sources, i, j), Swap(entry.revisions, i, j))
  }

  lemma SwapReorders(entry: HistoryEntry, i: nat, j: nat)
    requires i < |entry.sources| == |entry.revisions| && j < |entry.sources|
    ensures Reordered(entry, SwapEntry(entry, i, j))
  {
    var other := SwapEntry(entry, i, j);
    var p, q := Pairs(other), Swap(Pairs(entry), i, j);
    assert |p| == |q| && forall k :: 0 <= k < |p| ==> p[k] == q[k];
    assert p == q;
    SwapPermutes(Pairs(entry), i, j);
  }

  /** Put entry j where the lookup for this source looks first. */
  lemma ForceMatch(entry: HistoryEntry, src: Source, at: nat, j: nat) returns (other: HistoryEntry)
    requires j < |entry.sources| == |entry.revisions| && Matches(entry.sources[j], src)
    ensures Reordered(entry, other) && FromHistory(other, src, at) == entry.revisions[j]
  {
    var i := if at < |entry.sources| then at else 0;
    SwapReorders(entry, i, j);
    other := SwapEntry(entry, i, j);
    FoundAt(other, src, at, i);
  }

  lemma FoundAt(entry: HistoryEntry, src: Source, at: nat, i: nat)
    requires i < |entry.sources| == |entry.revisions| && Matches(entry.sources[i], src)
    requires i == if at < |entry.sources| then at else 0
    ensures FromHistory(entry, src, at) == entry.revisions[i]
  {}

  /** The revision read for a source survives every reordering exactly when no two candidates disagree. */
  lemma OrderIrrelevantIff(entry: HistoryEntry, src: Source, at: nat)
    requires |entry.sources| == |entry.revisions|
    ensures (forall other :: Reordered(entry, other) ==> FromHistory(other, src, at) == FromHistory(entry, src, at))
            <==> Unambiguous(entry, src)
  {
    if Unambiguous(entry, src) {
      forall other | Reordered(entry, other)
        ensures FromHistory(other, src, at) == FromHistory(entry, src, at)
      {
        FoundInPairs(entry, src, at);
        FoundInPairs(other, src, at);
        forall p ensures p in Pairs(entry) <==> p in Pairs(other) { SameMembers(entry, other, p); }
      }
    } else {
      var p, q :| p in Pairs(entry) && q in Pairs(entry) && Matches(p.0, src) && Matches(q.0, src) && p.1 != q.1;
      var pick := if p.1 == FromHistory(entry, src, at) then q else p;
      var j :| 0 <= j < |Pairs(entry)| && Pairs(entry)[j] == pick;
      var other := ForceMatch(entry, src, at, j);
      assert FromHistory(other, src, at) != FromHistory(entry, src, at);
    }
  }

  /** No two sources of an entry match each other. */
  ghost predicate PairwiseDistinct(sources: seq<Source>) {
    forall i, j :: 0 <= i < |sources| && 0 <= j < |sources| && i != j ==> !Matches(sources[i], sources[j])
  }

  /** For a source that is itself in the entry, this is enough: only its own revision can be found, in any order. */
  lemma DistinctAndListedUnambiguous(entry: HistoryEntry, k: nat)
    requires |entry.sources| == |entry.revisions| && k < |entry.sources| && PairwiseDistinct(entry.sources)
    ensures Unambiguous(entry, entry.sources[k])
    ensures forall other, at: nat :: Reordered(entry, other) ==>
              FromHistory(other, entry.sources[k], at) == entry.revisions[k]
  {
    var src := entry.sources[k];
    forall p | p in Pairs(entry) && Matches(p.0, src)
      ensures p.1 == entry.revisions[k]
    {
      var i :| 0 <= i < |Pairs(entry)| && Pairs(entry)[i] == p;
      assert i == k;
    }
    assert Pairs(entry)[k] in Pairs(entry) && Matches(src, src);
    forall other, at: nat | Reordered(entry, other)
      ensures FromHistory(other, src, at) == entry.revisions[k]
    {
      FoundInPairs(other, src, at);
      forall p ensures p in Pairs(entry) <==> p in Pairs(other) { SameMembers(entry, other, p); }
    }
  }

  /** For another source it is not, as matching is not transitive: swapping two sources changes what is found. */
  lemma DistinctSourcesMayBothMatch()
    ensures var a, b := Source("x", "r1", "", "", "", ""), Source("", "r2", "", "", "", "");
            var entry := HistoryEntry("", [a, b], ["1", "2"]);
            var swapped, src := SwapEntry(entry, 0, 1), Source("x", "r2", "", "", "", "");
            && PairwiseDistinct(entry.sources) && Reordered(entry, swapped)
            && FromHistory(entry, src, 0) == "1" && FromHistory(swapped, src, 0) == "2"
  {
    var a, b := Source("x", "r1", "", "", "", ""), Source("", "r2", "", "", "", "");
    var src := Source("x", "r2", "", "", "", "");
    var entry := HistoryEntry("", [a, b], ["1", "2"]);
    assert TrimSpace("x") == "x";
    assert !Matches(a, b) && !Matches(b, a) && Matches(a, src) && Matches(b, src);
    SwapReorders(entry, 0, 1);
    assert SwapEntry(entry, 0, 1).sources == [b, a] && SwapEntry(entry, 0, 1).revisions == ["2", "1"];
  }
}
