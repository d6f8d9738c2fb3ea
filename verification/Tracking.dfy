/**
 The annotated change revision against a linear git history: exactly when one reconciliation keeps it accurate, and
 what that gives for whole runs of an application that changes in any way.
 */
module Tracking {
  import opened Wrappers
  import opened Revisions
  import opened Annotations
  import ChangeScan
  import GitClient

  // ---------------------------------------------------------------- positions on a line of commits

  /** Newest touching commit from `first` to n. */
  function Newest(touching: set<nat>, first: nat, n: nat): (r: Option<nat>)
    ensures r.Some? ==> first <= r.value <= n
  {
    if n < first then None
    else if n in touching then Some(n)
    else if n == 0 then None
    else Newest(touching, first, n - 1)
  }

  /** The oldest commit listed for a move from p to n: the one after p, but n itself for no move at all. */
  function FirstListed(p: nat, n: nat): nat {
    if p == n then n else p + 1
  }

  /** Change revision after reconciling a move from p to n, starting from c. */
  function NextChange(touching: set<nat>, c: nat, p: nat, n: nat): nat {
    if n < p then n
    else match Newest(touching, FirstListed(p, n), n) case Some(i) => i case None => c
  }

  /** c is at or before g, and nothing after it up to g touches the application. */
  ghost predicate Accurate(touching: set<nat>, c: nat, g: nat) {
    c <= g && forall i :: c < i <= g ==> i !in touching
  }

  lemma {:induction false} NewestIs(touching: set<nat>, first: nat, n: nat)
    ensures match Newest(touching, first, n)
            case Some(i) => first <= i <= n && i in touching && Accurate(touching, i, n)
            case None => forall i :: first <= i <= n ==> i !in touching
  {
    if 0 < n && first <= n && n !in touching {
      NewestIs(touching, first, n - 1);
    }
  }

  /** The listed range is empty, or c is not past n and every commit after g up to n is listed. */
  predicate Covers(c: nat, g: nat, p: nat, n: nat) {
    n < p || (c <= n && (p <= g || n == p == g + 1))
  }

  /**
   Starting from an accurate (c, g), reconciling a move from p to n is accurate whatever the commits touched exactly
   when the move covers what was not reconciled yet. A skipped history entry (p past g) and a reconciled sync that
   never completed (c past n) are what fails.
   */
  lemma ReconcileAccurateIff(c: nat, g: nat, p: nat, n: nat)
    requires c <= g
    ensures (forall touching: set<nat> :: Accurate(touching, c, g) ==>
               Accurate(touching, NextChange(touching, c, p, n), n))
            <==> Covers(c, g, p, n)
  {
    if Covers(c, g, p, n) {
      forall touching: set<nat> | Accurate(touching, c, g)
        ensures Accurate(touching, NextChange(touching, c, p, n), n)
      {
        NewestIs(touching, FirstListed(p, n), n);
      }
    } else if n < c {
      NewestIs({}, FirstListed(p, n), n);
      assert Accurate({}, c, g) && !Accurate({}, NextChange({}, c, p, n), n);
    } else {
      var missed := if p < n then p else n - 1;
      NewestIs({missed}, FirstListed(p, n), n);
      assert Accurate({missed}, c, g) && !Accurate({missed}, NextChange({missed}, c, p, n), n);
    }
  }

  /** After a repo-server error the git revision advances to n but the change revision does not: safe only within g. */
  lemma ErrorAccurateIff(c: nat, g: nat, n: nat)
    requires c <= g
    ensures (forall touching: set<nat> :: Accurate(touching, c, g) ==> Accurate(touching, c, n)) <==> c <= n <= g
  {
    if n < c {
      assert Accurate({}, c, g) && !Accurate({}, c, n);
    } else if g < n {
      assert Accurate({n}, c, g) && !Accurate({n}, c, n);
    }
  }

  // ---------------------------------------------------------------- the repository

  /** A repository with one line of commits, oldest first, the files each changes, and the path matcher. */
  datatype World = World(
    commits: seq<string>, paths: seq<string>,
    files: string -> seq<string>, changed: (seq<string>, seq<string>) -> bool)

  ghost predicate Line(commits: seq<string>) {
    && (forall i :: 0 <= i < |commits| ==> GitClient.IsCommitSHA(commits[i]))
    && (forall i, j :: 0 <= i < j < |commits| ==> commits[i] != commits[j])
  }

  ghost predicate Linear(w: World) {
    Line(w.commits) && w.paths != []
  }

  function IndexOf(commits: seq<string>, revision: string): (i: nat)
    requires revision in commits
    ensures i < |commits| && commits[i] == revision
  {
    if commits[0] == revision then 0 else 1 + IndexOf(commits[1..], revision)
  }

  lemma UniqueIndex(commits: seq<string>, i: nat)
    requires Line(commits) && i < |commits|
    ensures IndexOf(commits, commits[i]) == i
  {}

  lemma Hashes(commits: seq<string>, revision: string)
    requires Line(commits) && revision in commits
    ensures GitClient.IsCommitSHA(revision) && revision != ""
  {}

  /** Forty equal digits are a hash, so there are lines of commits. */
  lemma LineExample()
    ensures Line([seq(40, i => '0'), seq(40, i => 'a'), seq(40, i => 'F')])
  {
    var line := [seq(40, i => '0'), seq(40, i => 'a'), seq(40, i => 'F')];
    assert line[0][0] == '0' && line[1][0] == 'a' && line[2][0] == 'F';
  }

  /** Commits from `first` to n, newest first. */
  function Range(commits: seq<string>, first: nat, n: nat): seq<string>
    requires n < |commits|
  {
    if n < first then [] else [commits[n]] + if n == 0 then [] else Range(commits, first, n - 1)
  }

  /** What git prints: commits after p up to n, newest first; unknown commits are an error. */
  function RevList(commits: seq<string>, p: string, n: string): GitClient.Lines {
    if p in commits && n in commits then Success(Range(commits, IndexOf(commits, p) + 1, IndexOf(commits, n)))
    else Failure(GitClient.CommandFailed)
  }

  function CommandsOf(w: World): GitClient.Commands {
    GitClient.Commands(
      (p, n) => RevList(w.commits, p, n),
      r => if r in w.commits then Success(w.files(r)) else Failure(GitClient.CommandFailed))
  }

  /** The repo server's view: a hash resolves to itself, and its checkout succeeds. */
  function GitOf(w: World): ChangeScan.Git {
    ChangeScan.Git(
      r => if GitClient.IsCommitSHA(r) then Some(r) else None, r => true,
      (p, n) => GitClient.ListRevisions(CommandsOf(w), p, n), r => GitClient.DiffTree(CommandsOf(w), r), w.changed)
  }

  function Touching(w: World): set<nat> {
    set i | 0 <= i < |w.commits| && ChangeScan.Touches(GitOf(w), w.paths, w.commits[i])
  }

  function ReplyTo(w: World, current: string, previous: string): Reply {
    match ChangeScan.Answer(GitOf(w), ChangeScan.Request(true, current, previous, w.paths))
    case Success(revision) => Found(revision)
    case Failure(_) => Unanswered(false)
  }

  /** The commit at position n as the scan sees it. */
  lemma DiffOnLine(w: World, n: nat)
    requires Linear(w) && n < |w.commits|
    ensures GitOf(w).diffTree(w.commits[n]).Success?
    ensures n in Touching(w) <==> ChangeScan.Touches(GitOf(w), w.paths, w.commits[n])
  {}

  lemma ScanOne(git: ChangeScan.Git, paths: seq<string>, first: string, rest: seq<string>)
    requires git.diffTree(first).Success?
    ensures ChangeScan.Scan(git, paths, [first] + rest) ==
            if ChangeScan.Touches(git, paths, first) then Success(first) else ChangeScan.Scan(git, paths, rest)
  {
    assert ([first] + rest)[1..] == rest;
  }

  /** The commit found, or nothing. */
  function Hit(commits: seq<string>, found: Option<nat>): string
    requires found.Some? ==> found.value < |commits|
  {
    if found.Some? then commits[found.value] else ""
  }

  /** A scan of a stretch of the line by any git that can read its commits. */
  lemma {:induction false} ScanRange(
      git: ChangeScan.Git, paths: seq<string>, commits: seq<string>, touching: set<nat>, first: nat, n: nat)
    requires n < |commits|
    requires forall i :: 0 <= i < |commits| ==>
               git.diffTree(commits[i]).Success? && (i in touching <==> ChangeScan.Touches(git, paths, commits[i]))
    ensures ChangeScan.Scan(git, paths, Range(commits, first, n)) == Success(Hit(commits, Newest(touching, first, n)))
  {
    if first <= n {
      ScanOne(git, paths, commits[n], if n == 0 then [] else Range(commits, first, n - 1));
      if n > 0 {
        ScanRange(git, paths, commits, touching, first, n - 1);
      }
    }
  }

  lemma RevListAt(commits: seq<string>, previous: string, current: string, p: nat, n: nat)
    requires previous in commits && current in commits
    requires IndexOf(commits, previous) == p && IndexOf(commits, current) == n
    ensures n < |commits| && RevList(commits, previous, current) == Success(Range(commits, p + 1, n))
  {}

  lemma RevListOnLine(commits: seq<string>, p: nat, n: nat)
    requires Line(commits) && p < |commits| && n < |commits|
    ensures RevList(commits, commits[p], commits[n]) == Success(Range(commits, p + 1, n))
  {
    UniqueIndex(commits, p);
    UniqueIndex(commits, n);
    RevListAt(commits, commits[p], commits[n], p, n);
  }

  /** The client lists the commits of the line from the first listed one on. */
  lemma ListedOnLine(w: World, p: nat, n: nat)
    requires Linear(w) && p < |w.commits| && n < |w.commits|
    ensures GitClient.ListRevisions(CommandsOf(w), w.commits[p], w.commits[n])
            == Success(Range(w.commits, FirstListed(p, n), n))
  {
    Hashes(w.commits, w.commits[p]);
    Hashes(w.commits, w.commits[n]);
    if p == n {
      assert Range(w.commits, n, n) == [w.commits[n]];
    } else {
      RevListOnLine(w.commits, p, n);
    }
  }

  lemma ScanOnLine(w: World, first: nat, n: nat)
    requires Linear(w) && n < |w.commits|
    ensures ChangeScan.Scan(GitOf(w), w.paths, Range(w.commits, first, n))
            == Success(Hit(w.commits, Newest(Touching(w), first, n)))
  {
    forall i | 0 <= i < |w.commits|
      ensures GitOf(w).diffTree(w.commits[i]).Success?
      ensures i in Touching(w) <==> ChangeScan.Touches(GitOf(w), w.paths, w.commits[i])
    {
      DiffOnLine(w, i);
    }
    ScanRange(GitOf(w), w.paths, w.commits, Touching(w), first, n);
  }

  /** The repo server's reply for two commits of the line. */
  lemma ReplyOnLine(w: World, p: nat, n: nat)
    requires Linear(w) && p < |w.commits| && n < |w.commits|
    ensures ReplyTo(w, w.commits[n], w.commits[p]) ==
            Found(if n < p then w.commits[n] else Hit(w.commits, Newest(Touching(w), FirstListed(p, n), n)))
  {
    Hashes(w.commits, w.commits[p]);
    Hashes(w.commits, w.commits[n]);
    ListedOnLine(w, p, n);
    ScanOnLine(w, FirstListed(p, n), n);
  }

  /** And without a previous commit, or with one that is not on the line. */
  lemma ReplyOffLine(w: World, previous: string, n: nat)
    requires Linear(w) && previous !in w.commits && n < |w.commits|
    ensures ReplyTo(w, w.commits[n], previous) == if previous == "" then Found(w.commits[n]) else Unanswered(false)
  {
    Hashes(w.commits, w.commits[n]);
  }

  // ---------------------------------------------------------------- one reconciliation of one source

  /** What the controller gets for a source; `down` when the call fails for reasons of its own. */
  function Response(w: World, r: SourceRevisions, down: bool): Reply {
    if down then Unanswered(false) else ReplyTo(w, r.current, r.previous)
  }

  /** Change and git revision after a reconciliation that is not abandoned. */
  function Noted(w: World, r: SourceRevisions, down: bool): (string, string) {
    Update(r, Response(w, r, down))
  }

  /** The claim for a source that has a change revision. */
  ghost predicate NotesAccurate(w: World, change: string, git: string) {
    change != "" ==>
      && change in w.commits && git in w.commits
      && Accurate(Touching(w), IndexOf(w.commits, change), IndexOf(w.commits, git))
  }

  /**
   What must hold of positions before a source is asked about, for the notes to stay accurate: nothing if there is
   no change revision or no previous revision, else that the move covers what is not reconciled, or after an error
   that there is nothing new.
   */
  predicate Safe(commits: seq<string>, r: SourceRevisions, down: bool)
    requires r.current in commits && (r.change != "" ==> r.change in commits && r.git in commits)
  {
    if r.change == "" || (!down && r.previous == "") then true
    else
      var c, g, n := IndexOf(commits, r.change), IndexOf(commits, r.git), IndexOf(commits, r.current);
      if down || r.previous !in commits then c <= n <= g else Covers(c, g, IndexOf(commits, r.previous), n)
  }

  /** Asking about two commits of the line and folding in the reply is the step on positions above. */
  lemma UpdateIsNextChange(w: World, r: SourceRevisions, c: nat, p: nat, n: nat)
    requires Linear(w) && MustAsk(r) && c < |w.commits| && p < |w.commits| && n < |w.commits|
    requires r.change == w.commits[c] && r.previous == w.commits[p] && r.current == w.commits[n]
    ensures var next := NextChange(Touching(w), c, p, n);
            next < |w.commits| && Noted(w, r, false) == (w.commits[next], r.current)
  {
    ReplyOnLine(w, p, n);
    Hashes(w.commits, r.change);
    if p <= n && Newest(Touching(w), FirstListed(p, n), n).Some? {
      Hashes(w.commits, w.commits[Newest(Touching(w), FirstListed(p, n), n).value]);
    }
  }

  /** Failing to get an answer keeps the change revision and moves the git revision. */
  lemma UpdateWithoutAnswer(w: World, r: SourceRevisions, down: bool)
    requires Linear(w) && MustAsk(r) && r.current in w.commits
    requires down || (r.previous !in w.commits && r.previous != "")
    ensures Noted(w, r, down) == (r.change, r.current)
  {
    if !down {
      ReplyOffLine(w, r.previous, IndexOf(w.commits, r.current));
    }
  }

  /** A repository with these commits of which exactly the given ones touch the application. */
  ghost function WorldTouching(commits: seq<string>, paths: seq<string>, touching: set<nat>): World {
    World(commits, paths, r => [r],
          (ps, fs) => |fs| > 0 && exists i :: i in touching && i < |commits| && commits[i] == fs[0])
  }

  lemma TouchingAsGiven(commits: seq<string>, paths: seq<string>, touching: set<nat>)
    requires Line(commits)
    ensures forall i :: 0 <= i < |commits| ==>
              (i in Touching(WorldTouching(commits, paths, touching)) <==> i in touching)
  {
    var w := WorldTouching(commits, paths, touching);
    forall i | 0 <= i < |commits|
      ensures i in Touching(w) <==> i in touching
    {
      assert GitOf(w).diffTree(commits[i]) == Success([commits[i]]);
    }
  }

  /** Notes c, g with a commit after c up to g touching are not accurate, and otherwise they are. */
  lemma NotesOnLine(w: World, c: nat, g: nat)
    requires Linear(w) && c < |w.commits| && g < |w.commits|
    ensures NotesAccurate(w, w.commits[c], w.commits[g]) <==> Accurate(Touching(w), c, g)
  {
    Hashes(w.commits, w.commits[c]);
    UniqueIndex(w.commits, c);
    UniqueIndex(w.commits, g);
  }

  /** The source has a previous commit on the line and the repo server can be reached. */
  predicate Answerable(commits: seq<string>, r: SourceRevisions, down: bool) {
    !down && r.previous in commits
  }

  /** With no change revision yet, whatever is noted is accurate. */
  lemma FirstNoteAccurate(w: World, r: SourceRevisions)
    requires Linear(w) && MustAsk(r) && r.current in w.commits && r.previous in w.commits && r.change == ""
    ensures var (change, git) := Noted(w, r, false); NotesAccurate(w, change, git)
  {
    var p, n := IndexOf(w.commits, r.previous), IndexOf(w.commits, r.current);
    ReplyOnLine(w, p, n);
    NotesOnLine(w, n, n);
    var found := Newest(Touching(w), FirstListed(p, n), n);
    NewestIs(Touching(w), FirstListed(p, n), n);
    if found.Some? {
      NotesOnLine(w, found.value, n);
    }
  }

  lemma RestartAccurate(w: World, r: SourceRevisions)
    requires Linear(w) && MustAsk(r) && r.current in w.commits && r.previous == ""
    ensures Noted(w, r, false) == (r.current, r.current) && NotesAccurate(w, r.current, r.current)
  {
    var n := IndexOf(w.commits, r.current);
    if "" in w.commits {
      Hashes(w.commits, "");
    }
    ReplyOffLine(w, "", n);
    NotesOnLine(w, n, n);
  }

  /** A safe reconciliation of a source that is asked about keeps its notes accurate. */
  lemma SafeIsAccurate(w: World, r: SourceRevisions, down: bool)
    requires Linear(w) && MustAsk(r) && r.current in w.commits && NotesAccurate(w, r.change, r.git)
    requires Safe(w.commits, r, down)
    ensures var (change, git) := Noted(w, r, down); NotesAccurate(w, change, git) && git == r.current
  {
    if !down && r.previous == "" {
      RestartAccurate(w, r);
    } else if !Answerable(w.commits, r, down) {
      UpdateWithoutAnswer(w, r, down);
    } else if r.change == "" {
      FirstNoteAccurate(w, r);
    } else {
      var c, g := IndexOf(w.commits, r.change), IndexOf(w.commits, r.git);
      var p, n := IndexOf(w.commits, r.previous), IndexOf(w.commits, r.current);
      UpdateIsNextChange(w, r, c, p, n);
      ReconcileAccurateIff(c, g, p, n);
      NotesOnLine(w, NextChange(Touching(w), c, p, n), n);
    }
  }

  /** Accurate notes on positions stay so in a repository where the same commits of the line touch. */
  lemma SameTouching(commits: seq<string>, paths: seq<string>, touching: set<nat>, c: nat, g: nat)
    requires Line(commits) && g < |commits|
    ensures Accurate(Touching(WorldTouching(commits, paths, touching)), c, g) <==> Accurate(touching, c, g)
  {
    TouchingAsGiven(commits, paths, touching);
  }

  lemma {:induction false} SameNewest(a: set<nat>, b: set<nat>, first: nat, n: nat)
    requires forall i :: 0 <= i <= n ==> (i in a <==> i in b)
    ensures Newest(a, first, n) == Newest(b, first, n)
  {
    if n > 0 {
      SameNewest(a, b, first, n - 1);
    }
  }

  /** An unsafe one makes them stale for some contents of the commits. */
  lemma UnsafeIsStale(commits: seq<string>, paths: seq<string>, r: SourceRevisions, down: bool) returns (w: World)
    requires Line(commits) && paths != [] && MustAsk(r) && r.current in commits
    requires r.change in commits && r.git in commits && IndexOf(commits, r.change) <= IndexOf(commits, r.git)
    requires r.change != "" && !Safe(commits, r, down)
    ensures w.commits == commits && w.paths == paths && NotesAccurate(w, r.change, r.git)
    ensures var (change, git) := Noted(w, r, down); !NotesAccurate(w, change, git)
  {
    var c, g, n := IndexOf(commits, r.change), IndexOf(commits, r.git), IndexOf(commits, r.current);
    if !Answerable(commits, r, down) {
      ErrorAccurateIff(c, g, n);
      var touching: set<nat> :| Accurate(touching, c, g) && !Accurate(touching, c, n);
      w := WorldTouching(commits, paths, touching);
      SameTouching(commits, paths, touching, c, g);
      SameTouching(commits, paths, touching, c, n);
      NotesOnLine(w, c, g);
      NotesOnLine(w, c, n);
      UpdateWithoutAnswer(w, r, down);
    } else {
      var p := IndexOf(commits, r.previous);
      ReconcileAccurateIff(c, g, p, n);
      var touching: set<nat> :|
        Accurate(touching, c, g) && !Accurate(touching, NextChange(touching, c, p, n), n);
      w := WorldTouching(commits, paths, touching);
      SameTouching(commits, paths, touching, c, g);
      TouchingAsGiven(commits, paths, touching);
      SameNewest(touching, Touching(w), FirstListed(p, n), n);
      var next := NextChange(touching, c, p, n);
      UpdateIsNextChange(w, r, c, p, n);
      SameTouching(commits, paths, touching, next, n);
      NotesOnLine(w, c, g);
      NotesOnLine(w, next, n);
    }
  }

  /**
   Given positions of the notes, a reconciliation that asks about a source keeps the notes accurate whatever the
   commits contain exactly when it is safe.
   */
  lemma UpdateAccurateIff(commits: seq<string>, paths: seq<string>, r: SourceRevisions, down: bool)
    requires Line(commits) && paths != [] && MustAsk(r) && r.current in commits
    requires r.change != "" ==>
               r.change in commits && r.git in commits && IndexOf(commits, r.change) <= IndexOf(commits, r.git)
    ensures (forall w: World :: w.commits == commits && w.paths == paths && NotesAccurate(w, r.change, r.git) ==>
               NotesAccurate(w, Noted(w, r, down).0, Noted(w, r, down).1))
            <==> Safe(commits, r, down)
  {
    if Safe(commits, r, down) {
      forall w: World | w.commits == commits && w.paths == paths && NotesAccurate(w, r.change, r.git)
        ensures NotesAccurate(w, Noted(w, r, down).0, Noted(w, r, down).1)
      {
        SafeIsAccurate(w, r, down);
      }
    } else {
      var w := UnsafeIsStale(commits, paths, r, down);
    }
  }
}
