/** The git client's two queries about commits, and the shared cache in front of them. */
module GitClient {
  import opened Wrappers
  import opened CacheKeys
  import opened CacheStore

  datatype GitError = InvalidRevision | CommandFailed

  type Lines = Result<seq<string>, GitError>

  /**
   The git commands of one repository: `git rev-list --ancestry-path p..t` and `git diff-tree` of a commit.
   Commits never change, so each is a function of its arguments.
   */
  datatype Commands = Commands(revList: (string, string) -> Lines, diffTree: string -> Lines)

  predicate IsHexDigit(c: char) {
    '0' <= c <= '9' || 'A' <= c <= 'F' || 'a' <= c <= 'f'
  }

  predicate IsCommitSHA(revision: string) {
    |revision| == 40 && forall i :: 0 <= i < 40 ==> IsHexDigit(revision[i])
  }

  /** Exactly forty hexadecimal digits, in either case. */
  lemma CommitSHAIff(s: string)
    ensures IsCommitSHA(s) <==> |s| == 40 && forall c :: c in s ==> c in "0123456789abcdefABCDEF"
  {
    var digits := "0123456789abcdefABCDEF";
    assert forall i :: 0 <= i < 10 ==> digits[i] as int == '0' as int + i;
    assert forall i :: 10 <= i < 16 ==> digits[i] as int == 'a' as int + i - 10;
    assert forall i :: 16 <= i < 22 ==> digits[i] as int == 'A' as int + i - 16;
    forall c: char
      ensures IsHexDigit(c) <==> c in digits
    {
      var n := c as int;
      if '0' <= c <= '9' {
        assert digits[n - '0' as int] == c;
      } else if 'a' <= c <= 'f' {
        assert digits[10 + n - 'a' as int] == c;
      } else if 'A' <= c <= 'F' {
        assert digits[16 + n - 'A' as int] == c;
      }
    }
    assert (forall i :: 0 <= i < |s| ==> IsHexDigit(s[i])) <==> forall c :: c in s ==> IsHexDigit(c);
  }

  /** Revisions after `revision` up to `target`, newest first; a revision up to itself is that one revision. */
  function ListRevisions(git: Commands, revision: string, target: string): Lines {
    if revision == "" then Success([target])
    else if !IsCommitSHA(revision) || !IsCommitSHA(target) then Failure(InvalidRevision)
    else if revision == target then Success([revision])
    else git.revList(revision, target)
  }

  /** Files changed by a commit. */
  function DiffTree(git: Commands, target: string): Lines {
    if !IsCommitSHA(target) then Failure(InvalidRevision) else git.diffTree(target)
  }

  // ---------------------------------------------------------------- with a cache

  /** What the shared cache holds: lists of lines, or git references in their own family of keys. */
  datatype Entry = Listed(lines: seq<string>) | References(pairs: seq<(string, string)>)

  /** The lines under a key; an entry of another type does not decode and counts as a miss. */
  function Cached(store: Store<Entry>, key: Key): Option<seq<string>> {
    if FullKey(key) in store && store[FullKey(key)].Listed? then Some(store[FullKey(key)].lines) else None
  }

  /** Look the key up, else run the command and keep what it prints unless that is nothing. */
  function Through(store: Store<Entry>, useCache: bool, key: Key, output: Lines): (Lines, Store<Entry>) {
    if useCache && Cached(store, key).Some? then (Success(Cached(store, key).value), store)
    else if useCache && output.Success? && output.value != [] then (output, store[FullKey(key) := Listed(output.value)])
    else (output, store)
  }

  /** What git itself says about a key's revisions. */
  ghost predicate Agrees(gits: string -> Commands, key: Key, entry: Entry) {
    match key
    case GitRefs(_) => true
    case ListRevisions(repo, p, t) => entry.Listed? && gits(repo).revList(p, t) == Success(entry.lines)
    case DiffTree(repo, r) => entry.Listed? && gits(repo).diffTree(r) == Success(entry.lines)
  }

  /** All revisions of the key are commit hashes, as they are whenever the client builds a key. */
  predicate OfCommits(key: Key) {
    match key
    case GitRefs(_) => true
    case ListRevisions(_, p, t) => IsCommitSHA(p) && IsCommitSHA(t)
    case DiffTree(_, r) => IsCommitSHA(r)
  }

  ghost predicate Faithful(store: Store<Entry>, gits: string -> Commands) {
    forall key: Key :: OfCommits(key) && FullKey(key) in store ==> Agrees(gits, key, store[FullKey(key)])
  }

  /** Hashes contain no bar, so the keys built from them cannot collide. */
  lemma CommitsAreClean(key: Key)
    requires OfCommits(key)
    ensures Clean(key)
  {
    if key.ListRevisions? {
      assert forall i :: 0 <= i < 40 ==> key.previous[i] != '|' && key.target[i] != '|';
    } else if key.DiffTree? {
      assert forall i :: 0 <= i < 40 ==> key.revision[i] != '|';
    }
  }

  /** Writing what git says under one key leaves all keys faithful, of this repository and of all others. */
  lemma WriteKeepsFaithful(store: Store<Entry>, gits: string -> Commands, key: Key, entry: Entry)
    requires Faithful(store, gits) && OfCommits(key) && Agrees(gits, key, entry)
    ensures Faithful(store[FullKey(key) := entry], gits)
  {
    forall other: Key | OfCommits(other) && FullKey(other) == FullKey(key)
      ensures other == key
    {
      CommitsAreClean(other);
      CommitsAreClean(key);
      NoCollision(other, key);
    }
  }

  /** Answering through a faithful cache is answering from git, and keeps the cache faithful. */
  lemma ThroughIsFresh(store: Store<Entry>, useCache: bool, key: Key, output: Lines, gits: string -> Commands)
    requires Faithful(store, gits) && OfCommits(key) && !key.GitRefs?
    requires output == match key
                      case ListRevisions(repo, p, t) => gits(repo).revList(p, t)
                      case DiffTree(repo, r) => gits(repo).diffTree(r)
    ensures Through(store, useCache, key, output).0 == output
    ensures Faithful(Through(store, useCache, key, output).1, gits)
  {
    if FullKey(key) in store {
      assert Agrees(gits, key, store[FullKey(key)]);
    }
    if output.Success? {
      WriteKeepsFaithful(store, gits, key, Listed(output.value));
    }
  }

  class NativeGitClient {
    const repoURL: string
    const cache: InMemoryCache<Entry>
    const useListRevisionsCache: bool
    const useDiffTreeCache: bool

    constructor (repoURL: string, cache: InMemoryCache<Entry>, lists: bool, diffs: bool)
      ensures this.repoURL == repoURL && this.cache == cache
      ensures useListRevisionsCache == lists && useDiffTreeCache == diffs
    {
      this.repoURL, this.cache, useListRevisionsCache, useDiffTreeCache := repoURL, cache, lists, diffs;
    }

    /** One cached command: look up, run, store. */
    method RunCached(useCache: bool, key: Key, command: () -> Lines) returns (r: Lines)
      modifies cache
      ensures (r, cache.items) == Through(old(cache.items), useCache, key, command())
    {
      if useCache {
        var hit := cache.Get(FullKey(key));
        if hit.Some? && hit.value.Listed? {
          return Success(hit.value.lines);
        }
      }
      r := command();
      if r.Success? && |r.value| > 0 && useCache {
        cache.Set(FullKey(key), Listed(r.value), false);
      }
    }

    method ListRevisions(gits: string -> Commands, revision: string, target: string) returns (r: Lines)
      modifies cache
      ensures (r, cache.items) ==
              Serve(old(cache.items), gits, List(repoURL, revision, target, useListRevisionsCache))
    {
      if revision == "" {
        return Success([target]);
      }
      if !IsCommitSHA(revision) || !IsCommitSHA(target) {
        return Failure(InvalidRevision);
      }
      if revision == target {
        return Success([revision]);
      }
      var key := Key.ListRevisions(repoURL, revision, target);
      r := RunCached(useListRevisionsCache, key, () => gits(repoURL).revList(revision, target));
    }

    method DiffTree(gits: string -> Commands, target: string) returns (r: Lines)
      modifies cache
      ensures (r, cache.items) == Serve(old(cache.items), gits, Diff(repoURL, target, useDiffTreeCache))
    {
      if !IsCommitSHA(target) {
        return Failure(InvalidRevision);
      }
      var key := Key.DiffTree(repoURL, target);
      r := RunCached(useDiffTreeCache, key, () => gits(repoURL).diffTree(target));
    }
  }

  // ---------------------------------------------------------------- all clients on one cache

  /** A query by a client of some repository, a write of that repository's references, or the end of any entry. */
  datatype Call =
    | List(repo: string, revision: string, target: string, useCache: bool)
    | Diff(repo: string, revision: string, useCache: bool)
    | PutReferences(repo: string, pairs: seq<(string, string)>)
    | Remove(fullKey: string)

  /** What a call answers and what it leaves in the cache. */
  function Serve(store: Store<Entry>, gits: string -> Commands, call: Call): (Lines, Store<Entry>) {
    match call
    case List(repo, p, t, useCache) =>
      if p != "" && p != t && IsCommitSHA(p) && IsCommitSHA(t)
      then Through(store, useCache, Key.ListRevisions(repo, p, t), gits(repo).revList(p, t))
      else (ListRevisions(gits(repo), p, t), store)
    case Diff(repo, r, useCache) =>
      if IsCommitSHA(r) then Through(store, useCache, Key.DiffTree(repo, r), gits(repo).diffTree(r))
      else (DiffTree(gits(repo), r), store)
    case PutReferences(repo, pairs) => (Success([]), store[FullKey(GitRefs(repo)) := References(pairs)])
    case Remove(fullKey) => (Success([]), store - {fullKey})
  }

  function Uncached(gits: string -> Commands, call: Call): Lines {
    match call
    case List(repo, p, t, _) => ListRevisions(gits(repo), p, t)
    case Diff(repo, r, _) => DiffTree(gits(repo), r)
    case PutReferences(_, _) => Success([])
    case Remove(_) => Success([])
  }

  function Answers(store: Store<Entry>, gits: string -> Commands, calls: seq<Call>): seq<Lines>
    decreases |calls|
  {
    if calls == [] then []
    else
      var (answer, next) := Serve(store, gits, calls[0]);
      [answer] + Answers(next, gits, calls[1..])
  }

  lemma ServeIsFresh(store: Store<Entry>, gits: string -> Commands, call: Call)
    requires Faithful(store, gits)
    ensures Serve(store, gits, call).0 == Uncached(gits, call)
    ensures Faithful(Serve(store, gits, call).1, gits)
  {
    match call
    case List(repo, p, t, useCache) =>
      if p != "" && p != t && IsCommitSHA(p) && IsCommitSHA(t) {
        ThroughIsFresh(store, useCache, Key.ListRevisions(repo, p, t), gits(repo).revList(p, t), gits);
      }
    case Diff(repo, r, useCache) =>
      if IsCommitSHA(r) {
        ThroughIsFresh(store, useCache, Key.DiffTree(repo, r), gits(repo).diffTree(r), gits);
      }
    case PutReferences(repo, pairs) => WriteKeepsFaithful(store, gits, GitRefs(repo), References(pairs));
    case Remove(_) =>
  }

  /** What is listed without asking git, and what is refused. */
  lemma ListsWithoutGit(git: Commands, revision: string, target: string)
    ensures revision == "" ==> ListRevisions(git, revision, target) == Success([target])
    ensures revision != "" && (!IsCommitSHA(revision) || !IsCommitSHA(target)) ==>
              ListRevisions(git, revision, target) == Failure(InvalidRevision)
    ensures !IsCommitSHA(target) ==> DiffTree(git, target) == Failure(InvalidRevision)
    ensures IsCommitSHA(target) ==> ListRevisions(git, target, target) == Success([target])
  {}

  /** The calls that reach a git command. */
  predicate AsksGit(call: Call) {
    || (call.List? && call.revision != call.target && IsCommitSHA(call.revision) && IsCommitSHA(call.target))
    || (call.Diff? && IsCommitSHA(call.revision))
  }

  /**
   From an empty cache a command is run once: if it printed something, every later caching call is answered with that
   whatever git would say by then. An error or an empty answer is not kept, nor is anything by a call that does not
   cache.
   */
  lemma CommandRunsOnce(gits: string -> Commands, call: Call)
    requires AsksGit(call)
    ensures var (answer, next) := Serve(map[], gits, call);
            && answer == Uncached(gits, call)
            && if call.useCache && answer.Success? && answer.value != []
               then forall later: string -> Commands :: Serve(next, later, call) == (answer, next)
               else next == map[]
  {}

  /** A client that does not cache neither reads nor writes the cache, whatever is in it. */
  lemma WithoutCachingUntouched(store: Store<Entry>, gits: string -> Commands, call: Call)
    requires (call.List? || call.Diff?) && !call.useCache
    ensures Serve(store, gits, call) == (Uncached(gits, call), store)
  {}

  /**
   However clients of any repositories, with or without caching, interleave on one cache, and whatever expires or is
   written for git references in between, every query is answered as by git itself.
   */
  lemma {:induction false} CachingIsInvisible(store: Store<Entry>, gits: string -> Commands, calls: seq<Call>)
    requires Faithful(store, gits)
    ensures Answers(store, gits, calls) == seq(|calls|, i requires 0 <= i < |calls| => Uncached(gits, calls[i]))
    decreases |calls|
  {
    if calls != [] {
      ServeIsFresh(store, gits, calls[0]);
      CachingIsInvisible(Serve(store, gits, calls[0]).1, gits, calls[1..]);
    }
  }
}
