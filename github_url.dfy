/**
 * `parseGitHubUrl` (pages/api/analyze.js:12-22): an unanchored search for the regular
 * expression `github\.com\/([^\/]+)\/([^\/]+)`, then `.replace(/\.git$/, '')` on the
 * second group.
 *
 * The regular expression is tried at each start position from the left. At a position
 * where the literal `github.com/` begins, each `[^\/]+` group takes the whole run of
 * non-slash characters that follows (a shorter run could not be followed by `/`), so the
 * match there exists exactly when the first run is non-empty and ends at a `/`, and the
 * run after that `/` is non-empty.
 */
module GitHubUrl {
  import opened Wrappers
  import opened Text
  import opened Records

  /** The `{ owner, repo }` pair. */
  datatype RepoRef = RepoRef(owner: string, repo: string)

  const Host := "github.com/"

  /** The thrown message; the handler looks for its first 18 characters. */
  const InvalidUrlMessage := "Invalid GitHub URL" + " format. Expected: https://github.com/owner/repo"

  /** The end of the run of non-slash characters that starts at `j`. */
  function SegmentEnd(s: string, j: nat): (e: nat)
    requires j <= |s|
    ensures j <= e <= |s|
    decreases |s| - j
  {
    if j == |s| || s[j] == '/' then j else SegmentEnd(s, j + 1)
  }

  /** The run is maximal: no slash inside it, and a slash or the end right after it. */
  lemma {:induction false} SegmentEndMaximal(s: string, j: nat)
    requires j <= |s|
    ensures forall k :: j <= k < SegmentEnd(s, j) ==> s[k] != '/'
    ensures SegmentEnd(s, j) < |s| ==> s[SegmentEnd(s, j)] == '/'
    decreases |s| - j
  {
    if j < |s| && s[j] != '/' {
      SegmentEndMaximal(s, j + 1);
    }
  }

  /** The two captured groups of a match starting at position `i`, if there is one. */
  function MatchAt(s: string, i: nat): Option<(string, string)>
    requires i <= |s|
  {
    if i + |Host| <= |s| && s[i..i + |Host|] == Host then
      var a := i + |Host|;
      var e := SegmentEnd(s, a);
      if a < e < |s| then
        var f := SegmentEnd(s, e + 1);
        if e + 1 < f then Some((s[a..e], s[e + 1..f])) else None
      else None
    else None
  }

  /** `url.match(regex)` from start position `i` on: the leftmost match. */
  function Search(s: string, i: nat): Option<(string, string)>
    requires i <= |s|
    decreases |s| - i
  {
    match MatchAt(s, i)
    case Some(m) => Some(m)
    case None => if i == |s| then None else Search(s, i + 1)
  }

  predicate EndsWithGit(r: string)
  {
    |r| >= 4 && r[|r| - 4..] == ".git"
  }

  /** `.replace(/\.git$/, '')`. */
  function StripGitSuffix(r: string): string
  {
    if EndsWithGit(r) then r[..|r| - 4] else r
  }

  /** `parseGitHubUrl(url)`: the owner and repository, or the thrown error. */
  function ParseGitHubUrl(url: string): Result<RepoRef, JsError>
  {
    match Search(url, 0)
    case None => Failure(JsError(InvalidUrlMessage, None))
    case Some((owner, raw)) => Success(RepoRef(owner, StripGitSuffix(raw)))
  }

  /**
   * `github.com/<owner>/<repo>` occurs in `s` at index `i`, with `owner` and `repo`
   * non-empty and free of slashes.
   */
  ghost predicate RefAt(s: string, i: int, owner: string, repo: string)
  {
    0 <= i && i + |Host| + |owner| + 1 + |repo| <= |s| &&
    s[i..i + |Host| + |owner| + 1 + |repo|] == Host + owner + "/" + repo &&
    owner != [] && repo != [] && '/' !in owner && '/' !in repo
  }

  /** The `repo` of an occurrence at `i` runs up to the next slash or the end of `s`. */
  ghost predicate RepoRunsToSlashOrEnd(s: string, i: int, owner: string, repo: string)
    requires RefAt(s, i, owner, repo)
  {
    var end := i + |Host| + |owner| + 1 + |repo|;
    end == |s| || s[end] == '/'
  }

  /** A stretch that `SegmentEnd` walked over holds no slash. */
  lemma SegmentHasNoSlash(s: string, j: nat)
    requires j <= |s|
    ensures '/' !in s[j..SegmentEnd(s, j)]
  {
    var e := SegmentEnd(s, j);
    SegmentEndMaximal(s, j);
    forall k | 0 <= k < e - j ensures s[j..e][k] != '/' {
      assert s[j..e][k] == s[j + k];
    }
  }

  lemma MatchAtSound(s: string, i: nat)
    requires i <= |s| && MatchAt(s, i).Some?
    ensures RefAt(s, i, MatchAt(s, i).value.0, MatchAt(s, i).value.1)
    ensures RepoRunsToSlashOrEnd(s, i, MatchAt(s, i).value.0, MatchAt(s, i).value.1)
  {
    var a := i + |Host|;
    var e := SegmentEnd(s, a);
    var f := SegmentEnd(s, e + 1);
    assert MatchAt(s, i) == Some((s[a..e], s[e + 1..f]));
    SegmentEndMaximal(s, a);
    SegmentEndMaximal(s, e + 1);
    SegmentHasNoSlash(s, a);
    SegmentHasNoSlash(s, e + 1);
    SlicesMeet(s, i, a, e, f);
  }

  /** The slice of an occurrence is the host, the owner, a slash and the repo. */
  lemma SlicesMeet(s: string, i: nat, a: nat, e: nat, f: nat)
    requires i <= a <= e < f <= |s| && s[i..a] == Host && s[e] == '/'
    ensures s[i..f] == Host + s[a..e] + "/" + s[e + 1..f]
  {
    assert s[e..f] == "/" + s[e + 1..f];
    assert s[a..f] == s[a..e] + s[e..f];
    assert s[i..f] == s[i..a] + s[a..f];
  }

  /** The pieces of an occurrence, as slices of `s`. */
  lemma RefAtParts(s: string, i: int, owner: string, repo: string)
    requires RefAt(s, i, owner, repo)
    ensures var a := i + |Host|; var e := a + |owner|;
      s[i..a] == Host && s[a..e] == owner && s[e] == '/' &&
      s[e + 1..e + 1 + |repo|] == repo
  {
    var a := i + |Host|;
    var e := a + |owner|;
    var n := e + 1 + |repo|;
    var t := s[i..n];
    OccurrenceParts(Host, owner, repo);
    SliceOfSlice(s, i, n, 0, |Host|);
    SliceOfSlice(s, i, n, |Host|, |Host| + |owner|);
    SliceOfSlice(s, i, n, |Host| + |owner| + 1, n - i);
    assert s[e] == t[|Host| + |owner|];
  }

  /** A slice of a slice is a slice of the whole. */
  lemma SliceOfSlice(s: string, i: nat, n: nat, x: nat, y: nat)
    requires i <= n <= |s| && x <= y <= n - i
    ensures s[i..n][x..y] == s[i + x..i + y]
  {
    assert forall k :: 0 <= k < y - x ==> s[i..n][x..y][k] == s[i + x + k] == s[i + x..i + y][k];
  }

  lemma OccurrenceParts(h: string, o: string, r: string)
    ensures var w := h + o + "/" + r;
      w[..|h|] == h && w[|h|..|h| + |o|] == o && w[|h| + |o|] == '/' && w[|h| + |o| + 1..] == r
  {
  }

  /** A slice without slashes keeps `SegmentEnd` from stopping inside it. */
  lemma SegmentEndPast(s: string, j: nat, t: string)
    requires j + |t| <= |s| && s[j..j + |t|] == t && '/' !in t
    ensures SegmentEnd(s, j) >= j + |t|
  {
    SegmentEndMaximal(s, j);
  }

  lemma {:induction false} MatchAtComplete(s: string, i: int, owner: string, repo: string)
    requires RefAt(s, i, owner, repo)
    ensures MatchAt(s, i).Some? && MatchAt(s, i).value.0 == owner
    ensures RepoRunsToSlashOrEnd(s, i, owner, repo) ==> MatchAt(s, i).value.1 == repo
  {
    RefAtParts(s, i, owner, repo);
    var a := i + |Host|;
    var e := a + |owner|;
    SegmentEndPast(s, a, owner);
    SegmentEndMaximal(s, a);
    assert SegmentEnd(s, a) == e;
    SegmentEndPast(s, e + 1, repo);
    var f := SegmentEnd(s, e + 1);
    SegmentEndMaximal(s, e + 1);
    if RepoRunsToSlashOrEnd(s, i, owner, repo) {
      assert f == e + 1 + |repo|;
    }
  }

  /** The search reports the match at the first position where there is one. */
  lemma {:induction false} SearchLeftmost(s: string, i: nat) returns (j: nat)
    requires i <= |s| && Search(s, i).Some?
    ensures i <= j <= |s| && MatchAt(s, j) == Search(s, i)
    ensures forall k :: i <= k < j ==> MatchAt(s, k).None?
    decreases |s| - i
  {
    if MatchAt(s, i).Some? {
      j := i;
    } else {
      j := SearchLeftmost(s, i + 1);
    }
  }

  lemma {:induction false} SearchNone(s: string, i: nat)
    requires i <= |s| && Search(s, i).None?
    ensures forall k :: i <= k <= |s| ==> MatchAt(s, k).None?
    decreases |s| - i
  {
    if i < |s| {
      SearchNone(s, i + 1);
    }
  }

  /**
   * The parse succeeds exactly when `github.com/` followed by two non-empty slash-free
   * segments separated by `/` occurs somewhere in the input.
   */
  lemma ParseSucceedsIff(url: string)
    ensures ParseGitHubUrl(url).Success? <==> exists i, o, r :: RefAt(url, i, o, r)
  {
    if ParseGitHubUrl(url).Success? {
      var j := SearchLeftmost(url, 0);
      MatchAtSound(url, j);
    } else {
      SearchNone(url, 0);
      forall i, o, r | RefAt(url, i, o, r) ensures false {
        MatchAtComplete(url, i, o, r);
      }
    }
  }

  /**
   * On success the owner is the first segment of the leftmost occurrence, and the repo is
   * the whole second segment with one trailing `.git` removed.
   */
  lemma ParseSuccessMeaning(url: string, ref: RepoRef)
    requires ParseGitHubUrl(url) == Success(ref)
    ensures exists i, raw ::
      RefAt(url, i, ref.owner, raw) && RepoRunsToSlashOrEnd(url, i, ref.owner, raw) &&
      ref.repo == StripGitSuffix(raw) &&
      forall j, o, r :: 0 <= j < i ==> !RefAt(url, j, o, r)
  {
    var i := SearchLeftmost(url, 0);
    MatchAtSound(url, i);
    var raw := MatchAt(url, i).value.1;
    forall j, o, r | 0 <= j < i ensures !RefAt(url, j, o, r) {
      if RefAt(url, j, o, r) {
        MatchAtComplete(url, j, o, r);
      }
    }
    assert RefAt(url, i, ref.owner, raw) && RepoRunsToSlashOrEnd(url, i, ref.owner, raw);
  }

  /** A failed parse throws the error the handler recognises as an invalid URL. */
  lemma ParseFailureMessage(url: string)
    requires ParseGitHubUrl(url).Failure?
    ensures Contains(ParseGitHubUrl(url).error.message, "Invalid GitHub URL")
    ensures ParseGitHubUrl(url).error.status.None?
  {
    ContainsPrefix(InvalidUrlMessage, "Invalid GitHub URL");
  }

  /** Exactly one trailing `.git` is removed, and a name without it is kept. */
  lemma StripGitSuffixExact(x: string)
    ensures StripGitSuffix(x + ".git") == x
    ensures !EndsWithGit(x) ==> StripGitSuffix(x) == x
  {
    assert (x + ".git")[|x|..] == ".git";
    assert (x + ".git")[..|x|] == x;
  }

  /**
   * An occurrence after a prefix is matched there, its repo running up to the next slash
   * or the end.
   */
  lemma MatchAtOccurrence(p: string, owner: string, raw: string, tail: string)
    requires owner != [] && raw != [] && '/' !in owner && '/' !in raw
    requires tail == [] || tail[0] == '/'
    ensures MatchAt(p + Host + owner + "/" + raw + tail, |p|) == Some((owner, raw))
  {
    var s := p + Host + owner + "/" + raw + tail;
    var n := |p| + |Host| + |owner| + 1 + |raw|;
    assert s[|p|..n] == Host + owner + "/" + raw;
    assert RefAt(s, |p|, owner, raw);
    assert n == |s| || s[n] == '/';
    MatchAtComplete(s, |p|, owner, raw);
  }

  /** No match starts at a character other than `g`. */
  lemma NoMatchWithoutG(s: string, k: nat)
    requires k < |s| && s[k] != 'g'
    ensures MatchAt(s, k).None?
  {
    if k + |Host| <= |s| {
      assert s[k..k + |Host|][0] == s[k];
    }
  }

  /** No match starts inside a prefix without a `g`. */
  lemma SearchPastPrefix(s: string, n: nat)
    requires n <= |s| && 'g' !in s[..n]
    ensures Search(s, 0) == Search(s, n)
  {
    forall k | 0 <= k < n ensures MatchAt(s, k).None? {
      assert s[k] == s[..n][k];
      NoMatchWithoutG(s, k);
    }
    SearchSkips(s, 0, n);
  }

  lemma ParseExampleGitSuffix()
    ensures ParseGitHubUrl(Host + "o" + "/" + "r.git" + "/tree") == Success(RepoRef("o", "r"))
  {
    MatchAtOccurrence("", "o", "r.git", "/tree");
    assert "" + Host + "o" + "/" + "r.git" + "/tree" == Host + "o" + "/" + "r.git" + "/tree";
    assert StripGitSuffix("r.git") == "r";
  }

  /** A repo segment that is only `.git` is emptied. */
  lemma ParseExampleOnlyGit()
    ensures ParseGitHubUrl(Host + "o" + "/" + ".git") == Success(RepoRef("o", ""))
  {
    MatchAtOccurrence("", "o", ".git", "");
    assert "" + Host + "o" + "/" + ".git" + "" == Host + "o" + "/" + ".git";
    assert StripGitSuffix(".git") == "";
  }

  /** Positions where the expression does not match are skipped by the search. */
  lemma {:induction false} SearchSkips(s: string, i: nat, j: nat)
    requires i <= j <= |s|
    requires forall k :: i <= k < j ==> MatchAt(s, k).None?
    ensures Search(s, i) == Search(s, j)
    decreases j - i
  {
    if i < j {
      SearchSkips(s, i + 1, j);
    }
  }

  /**
   * After a prefix without a `g`, an occurrence running to the end parses to its owner and
   * its repo without `.git`.
   */
  lemma ParseAfterPrefix(p: string, owner: string, raw: string)
    requires 'g' !in p
    requires owner != [] && raw != [] && '/' !in owner && '/' !in raw
    ensures ParseGitHubUrl(p + Host + owner + "/" + raw) == Success(RepoRef(owner, StripGitSuffix(raw)))
  {
    var s := p + Host + owner + "/" + raw;
    assert s + "" == s;
    MatchAtOccurrence(p, owner, raw, "");
    assert s[..|p|] == p;
    SearchPastPrefix(s, |p|);
  }

  /** The usual form of a repository address: the scheme is skipped, `.js` is kept. */
  lemma ParseExampleScheme()
    ensures ParseGitHubUrl("https://" + Host + "vercel" + "/" + "next.js") == Success(RepoRef("vercel", "next.js"))
  {
    ParseAfterPrefix("https://", "vercel", "next.js");
    assert !EndsWithGit("next.js");
  }

  /** An address without a repository segment does not parse. */
  lemma ParseExampleNoRepo()
    ensures ParseGitHubUrl(Host + "owner").Failure?
  {
    var s := Host + "owner";
    assert s[11..16] == "owner";
    SegmentEndPast(s, 11, "owner");
    assert MatchAt(s, 0).None?;
    forall k | 1 <= k <= |s| ensures MatchAt(s, k).None? {
      if k < 6 { assert s[k] != 'g'; }
    }
    SearchSkips(s, 0, |s|);
  }

  /** A `github.com/` where the pattern fails is passed over for a later one that matches. */
  lemma ParseExampleSkipsEmptyOwner()
    ensures ParseGitHubUrl(Host + "/" + Host + "a" + "/" + "b") == Success(RepoRef("a", "b"))
  {
    var p := Host + "/";
    var s := p + Host + "a" + "/" + "b";
    assert s + "" == s;
    MatchAtOccurrence(p, "a", "b", "");
    assert s[..11] == Host && s[11] == '/';
    assert MatchAt(s, 0).None?;
    forall k | 1 <= k < |p| ensures MatchAt(s, k).None? {
      assert s[k] == p[k] != 'g';
      NoMatchWithoutG(s, k);
    }
    SearchSkips(s, 0, |p|);
    assert !EndsWithGit("b");
  }
}
