/** Cache keys as formatted strings, and the key-value store they index. */
module CacheKeys {
  import opened Sequences

  const CACHE_VERSION := "1.8.3"

  datatype Key =
    | GitRefs(repo: string)
    | ListRevisions(repo: string, previous: string, target: string)
    | DiffTree(repo: string, revision: string)

  function Format(key: Key): string {
    match key
    case GitRefs(repo) => "git-refs|" + repo
    case ListRevisions(repo, previous, target) => "listrevisions|" + repo + "|" + previous + "|" + target
    case DiffTree(repo, revision) => "difftree|" + repo + "|" + revision
  }

  function FullKey(key: Key): string {
    Format(key) + "|" + CACHE_VERSION
  }

  /** One key of each family as it is stored. */
  lemma KeyExamples()
    ensures FullKey(GitRefs("r")) == "git-refs|r|1.8.3"
    ensures FullKey(ListRevisions("r", "p", "t")) == "listrevisions|r|p|t|1.8.3"
    ensures FullKey(DiffTree("r", "v")) == "difftree|r|v|1.8.3"
  {}

  function Bars(s: string): nat {
    if s == "" then 0 else (if s[0] == '|' then 1 else 0) + Bars(s[1..])
  }

  lemma {:induction false} BarsConcat(a: string, b: string)
    ensures Bars(a + b) == Bars(a) + Bars(b)
  {
    if a == "" {
      assert a + b == b;
    } else {
      assert (a + b)[1..] == a[1..] + b;
      BarsConcat(a[1..], b);
    }
  }

  lemma {:induction false} NoBars(s: string)
    ensures '|' !in s <==> Bars(s) == 0
  {
    if s != "" {
      NoBars(s[1..]);
      assert s == [s[0]] + s[1..];
    }
  }

  /** A longer right part of the same string has more bars than a shorter one preceded by a bar. */
  lemma LongerHasMore(a: string, b: string, c: string, d: string)
    requires a + "|" + b == c + "|" + d && |b| < |d|
    ensures Bars(b) < Bars(d)
  {
    var s, k := a + "|" + b, |d| - |b| - 1;
    SplitAt(s, a, '|', b);
    SplitAt(s, c, '|', d);
    assert d == d[..k] + "|" + b by {
      assert d[k] == s[|a|] == '|';
      assert d[k + 1..] == b;
    }
    BarsConcat(d[..k] + "|", b);
    BarsConcat(d[..k], "|");
    assert Bars("|") == 1;
  }

  /** Where a bar-separated pair is split is decided by the number of bars to its right. */
  lemma SplitDecided(a: string, b: string, c: string, d: string)
    requires a + "|" + b == c + "|" + d
    ensures (a == c && b == d) <==> Bars(b) == Bars(d)
  {
    if |b| < |d| {
      LongerHasMore(a, b, c, d);
    } else if |d| < |b| {
      LongerHasMore(c, d, a, b);
    } else {
      SplitAt(a + "|" + b, a, '|', b);
      SplitAt(a + "|" + b, c, '|', d);
    }
  }

  lemma FamiliesDiffer(k: Key, l: Key)
    requires Format(k) == Format(l)
    ensures k.GitRefs? == l.GitRefs? && k.ListRevisions? == l.ListRevisions?
  {
    assert Format(k)[0] == Format(l)[0];
    assert "git-refs|"[0] == 'g' && "listrevisions|"[0] == 'l' && "difftree|"[0] == 'd';
  }

  /** Bars in the revisions a key names. */
  function RevisionBars(key: Key): (nat, nat) {
    match key
    case GitRefs(_) => (0, 0)
    case ListRevisions(_, previous, target) => (Bars(previous), Bars(target))
    case DiffTree(_, revision) => (Bars(revision), 0)
  }

  lemma StripPrefix(p: string, a: string, b: string)
    requires p + a == p + b
    ensures a == b
  {
    assert (p + a)[|p|..] == a && (p + b)[|p|..] == b;
  }

  /** Two keys with the same text are the same key exactly when their revisions hold equally many bars. */
  lemma SameTextSameKeyIff(k: Key, l: Key)
    requires Format(k) == Format(l)
    ensures k == l <==> RevisionBars(k) == RevisionBars(l)
  {
    FamiliesDiffer(k, l);
    match k
    case GitRefs(repo) => StripPrefix("git-refs|", repo, l.repo);
    case DiffTree(repo, revision) =>
      assert Format(k) == "difftree|" + (repo + "|" + revision);
      assert Format(l) == "difftree|" + (l.repo + "|" + l.revision);
      StripPrefix("difftree|", repo + "|" + revision, l.repo + "|" + l.revision);
      SplitDecided(repo, revision, l.repo, l.revision);
    case ListRevisions(repo, previous, target) =>
      var p := "listrevisions|";
      SplitDecided(p + repo + "|" + previous, target, p + l.repo + "|" + l.previous, l.target);
      if Bars(target) == Bars(l.target) {
        SplitDecided(p + repo, previous, p + l.repo, l.previous);
        if Bars(previous) == Bars(l.previous) {
          StripPrefix(p, repo, l.repo);
        }
      }
  }

  /** Revisions, unlike repository URLs, never contain a bar. */
  predicate Clean(key: Key) {
    match key
    case GitRefs(_) => true
    case ListRevisions(_, previous, target) => '|' !in previous && '|' !in target
    case DiffTree(_, revision) => '|' !in revision
  }

  /** Hence clean keys, of one family or of different ones, never collide in the store. */
  lemma NoCollision(k: Key, l: Key)
    requires Clean(k) && Clean(l) && FullKey(k) == FullKey(l)
    ensures k == l
  {
    var suffix := "|" + CACHE_VERSION;
    assert FullKey(k) == Format(k) + suffix && FullKey(l) == Format(l) + suffix;
    assert FullKey(k)[..|FullKey(k)| - |suffix|] == Format(k) && FullKey(l)[..|FullKey(l)| - |suffix|] == Format(l);
    NoRevisionBars(k);
    NoRevisionBars(l);
    SameTextSameKeyIff(k, l);
  }

  lemma NoRevisionBars(k: Key)
    requires Clean(k)
    ensures RevisionBars(k) == (0, 0)
  {
    match k
    case GitRefs(_) =>
    case ListRevisions(_, previous, target) => NoBars(previous); NoBars(target);
    case DiffTree(_, revision) => NoBars(revision);
  }

  /** The premise is needed: a bar in a revision lets two requests share an entry. */
  lemma BarsCollide()
    ensures exists k: Key, l: Key :: k != l && FullKey(k) == FullKey(l)
  {
    var k, l := DiffTree("r", "a|b"), DiffTree("r|a", "b");
    assert Format(k) == "difftree|r|a|b" == Format(l);
    assert |k.repo| != |l.repo|;
    assert k != l && FullKey(k) == FullKey(l);
  }
}
