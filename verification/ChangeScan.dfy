/** The repo server's search for the newest commit of a range that touches an application's paths. */
module ChangeScan {
  import opened Wrappers
  import GitClient

  /** A status code, or the panic of the deferred metrics call when the request names no repository. */
  datatype Error = InvalidArgument | Internal | NilDereference

  /** The git client and path matcher as seen by one request: each call's outcome for each argument. */
  datatype Git = Git(
    resolve: string -> Option<string>,
    checkout: string -> bool,
    listRevisions: (string, string) -> GitClient.Lines,
    diffTree: string -> GitClient.Lines,
    filesChanged: (seq<string>, seq<string>) -> bool)

  datatype Request = Request(hasRepo: bool, current: string, previous: string, paths: seq<string>)

  /** What a request does to the repository lock, and the queries it makes while holding it. */
  datatype Action = Locked(revision: string) | Listed | Diffed(revision: string) | Unlocked

  /** A commit that lists at least one file and whose files match the application's paths. */
  predicate Touches(git: Git, paths: seq<string>, revision: string) {
    var files := git.diffTree(revision);
    files.Success? && files.value != [] && git.filesChanged(paths, files.value)
  }

  predicate Passes(git: Git, paths: seq<string>, revision: string) {
    git.diffTree(revision).Success? && !Touches(git, paths, revision)
  }

  function Scan(git: Git, paths: seq<string>, revisions: seq<string>): Result<string, Error> {
    if revisions == [] then Success("")
    else if git.diffTree(revisions[0]).Failure? then Failure(Internal)
    else if Touches(git, paths, revisions[0]) then Success(revisions[0])
    else Scan(git, paths, revisions[1..])
  }

  function Answer(git: Git, request: Request): Result<string, Error> {
    if !request.hasRepo then Failure(NilDereference)
    else if request.paths == [] then Failure(InvalidArgument)
    else
      var resolved := git.resolve(request.current);
      if resolved.None? then Failure(Internal)
      else if request.previous == "" then Success(request.current)
      else if !git.checkout(resolved.value) then Failure(Internal)
      else
        var listed := git.listRevisions(request.previous, resolved.value);
        if listed.Failure? then Failure(Internal)
        else if listed.value == [] then Success(resolved.value)
        else Scan(git, request.paths, listed.value)
  }

  /** The request gets as far as holding the lock on its checkout. */
  predicate Locks(git: Git, request: Request) {
    && request.hasRepo && request.paths != [] && request.previous != ""
    && git.resolve(request.current).Some? && git.checkout(git.resolve(request.current).value)
  }

  /** The scan stops at the first revision that does not pass: it reports that one, or the error reading it. */
  lemma {:induction false} ScanFindsFirst(git: Git, paths: seq<string>, revisions: seq<string>, i: nat)
    requires i <= |revisions| && forall j :: 0 <= j < i ==> Passes(git, paths, revisions[j])
    requires i < |revisions| ==> !Passes(git, paths, revisions[i])
    ensures Scan(git, paths, revisions) ==
            if i == |revisions| then Success("")
            else if Touches(git, paths, revisions[i]) then Success(revisions[i])
            else Failure(Internal)
  {
    if i > 0 {
      assert Passes(git, paths, revisions[0]);
      ScanFindsFirst(git, paths, revisions[1..], i - 1);
    }
  }

  /** Lock, list, and one query per revision from the front on; nothing is unlocked or locked in between. */
  predicate Held(trace: seq<Action>, revision: string, revisions: seq<string>) {
    && 2 <= |trace| <= 2 + |revisions| && trace[0] == Locked(revision) && trace[1] == Listed
    && forall i :: 2 <= i < |trace| ==> trace[i] == Diffed(revisions[i - 2])
  }

  /** Whatever the outcome, all queries are made while holding the lock at the resolved revision, then released. */
  ghost predicate Guarded(trace: seq<Action>, git: Git, request: Request) {
    if !Locks(git, request) then trace == []
    else
      var revision := git.resolve(request.current).value;
      var listed := git.listRevisions(request.previous, revision);
      && trace != [] && trace[|trace| - 1] == Unlocked
      && Held(trace[..|trace| - 1], revision, if listed.Success? then listed.value else [])
  }

  /** The request handler: early returns, then the scan loop over the listed revisions, newest first. */
  method GetChangeRevision(git: Git, request: Request) returns (r: Result<string, Error>, trace: seq<Action>)
    ensures r == Answer(git, request)
    ensures r == Failure(NilDereference) <==> !request.hasRepo
    ensures r == Failure(InvalidArgument) <==> request.hasRepo && request.paths == []
    ensures r.Success? ==> git.resolve(request.current).Some?
    ensures r.Success? && request.previous != "" ==> git.checkout(git.resolve(request.current).value)
    ensures r.Success? && request.previous == "" ==> r.value == request.current
    ensures r.Success? && request.previous != "" ==>
              exists revisions ::
                && git.listRevisions(request.previous, git.resolve(request.current).value) == Success(revisions)
                && NewestTouching(git, request.paths, revisions, git.resolve(request.current).value, r.value)
    ensures Guarded(trace, git, request)
  {
    trace := [];
    if !request.hasRepo {
      // the invalid-argument status is prepared, but the deferred call reads the repository's address first
      return Failure(NilDereference), trace;
    }
    if |request.paths| == 0 {
      return Failure(InvalidArgument), trace;
    }
    var resolved := git.resolve(request.current);
    if resolved.None? {
      return Failure(Internal), trace;
    }
    var revision := resolved.value;
    if request.previous == "" {
      return Success(request.current), trace;
    }
    if !git.checkout(revision) {
      return Failure(Internal), trace;
    }
    trace := [Locked(revision), Listed];
    var listed := git.listRevisions(request.previous, revision);
    if listed.Failure? {
      r := Failure(Internal);
    } else if |listed.value| == 0 {
      r := Success(revision);
    } else {
      r, trace := ScanRevisions(git, request.paths, listed.value, revision, trace);
    }
    ghost var held := trace;
    trace := trace + [Unlocked];
    assert trace[..|trace| - 1] == held;
  }

  /** The scan loop, adding its queries to the trace. */
  method ScanRevisions(
      git: Git, paths: seq<string>, revisions: seq<string>, ghost revision: string, before: seq<Action>)
    returns (r: Result<string, Error>, trace: seq<Action>)
    requires |before| == 2 && Held(before, revision, revisions)
    ensures r == Scan(git, paths, revisions) && (r.Failure? ==> r.error == Internal)
    ensures r.Success? ==> NewestTouching(git, paths, revisions, "", r.value)
    ensures Held(trace, revision, revisions)
  {
    trace := before;
    for i := 0 to |revisions|
      invariant forall j :: 0 <= j < i ==> Passes(git, paths, revisions[j])
      invariant |trace| == 2 + i && Held(trace, revision, revisions)
    {
      var files := git.diffTree(revisions[i]);
      trace := trace + [Diffed(revisions[i])];
      if files.Failure? {
        ScanFindsFirst(git, paths, revisions, i);
        return Failure(Internal), trace;
      }
      if |files.value| == 0 {
        continue;
      }
      if git.filesChanged(paths, files.value) {
        ScanFindsFirst(git, paths, revisions, i);
        assert NewestTouchingAt(git, paths, revisions, i);
        return Success(revisions[i]), trace;
      }
    }
    ScanFindsFirst(git, paths, revisions, |revisions|);
    r := Success("");
  }

  /** The commit at i lists files that match; those before it could be read and list none, or none that match. */
  ghost predicate NewestTouchingAt(git: Git, paths: seq<string>, revisions: seq<string>, i: int) {
    && 0 <= i < |revisions|
    && (exists files :: git.diffTree(revisions[i]) == Success(files) && files != [] && git.filesChanged(paths, files))
    && NoneTouching(git, paths, revisions[..i])
  }

  ghost predicate NoneTouching(git: Git, paths: seq<string>, revisions: seq<string>) {
    forall j :: 0 <= j < |revisions| ==>
      var files := git.diffTree(revisions[j]);
      files.Success? && (files.value == [] || !git.filesChanged(paths, files.value))
  }

  /** What a successful answer means for the listed range. */
  ghost predicate NewestTouching(git: Git, paths: seq<string>, revisions: seq<string>, current: string, found: string) {
    || (revisions == [] && found == current)
    || (found == "" && NoneTouching(git, paths, revisions))
    || exists i :: NewestTouchingAt(git, paths, revisions, i) && revisions[i] == found
  }
}
