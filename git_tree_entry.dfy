/**
 * URLs of the entries of a Git tree, and the synthetic file information
 * the resolver builds for entries it did not read from Git.
 */
module GitTreeEntry {
  import opened Wrappers

  // ---------------------------------------------------------------------
  // File modes and the synthetic fileInfo
  // ---------------------------------------------------------------------

  /** os.FileMode: a 32-bit word of mode and permission bits. */
  type FileMode = bv32

  /** os.ModeDir, the most significant bit. */
  const ModeDir: FileMode := 0x8000_0000

  /** FileMode.IsDir */
  predicate ModeIsDir(m: FileMode) {
    m & ModeDir != 0
  }

  /** The file information createFileInfo builds from a path and a directory flag. */
  datatype FileInfo = FileInfo(path: string, isDir: bool)

  /** createFileInfo: the file information of a path, a directory or not. */
  function CreateFileInfo(path: string, isDir: bool): (f: FileInfo)
    ensures Name(f) == path && IsDir(f) == isDir && Size(f) == 0
  {
    FileInfo(path, isDir)
  }

  /** Name reports the whole stored path, not its last element. */
  function Name(f: FileInfo): string {
    f.path
  }

  function Size(f: FileInfo): int {
    0
  }

  function IsDir(f: FileInfo): bool {
    f.isDir
  }

  /** A directory reports exactly ModeDir; anything else reports no mode bits at all. */
  function Mode(f: FileInfo): (m: FileMode)
    ensures ModeIsDir(m) <==> IsDir(f)
    ensures m == if f.isDir then ModeDir else 0
  {
    if IsDir(f) then ModeDir else 0
  }

  // ---------------------------------------------------------------------
  // Tree entries
  // ---------------------------------------------------------------------

  /** A submodule's clone URL and the commit it is pinned at. */
  datatype Submodule = Submodule(url: string, commit: string)

  /**
   * The os.FileInfo of an entry: either a synthetic one, whose Sys() is nil,
   * or one read from Git, given by its mode and, for a submodule, the
   * git.Submodule its Sys() holds.
   */
  datatype Stat =
    | Synthetic(info: FileInfo)
    | FromGit(mode: FileMode, submodule: Option<Submodule>)

  function StatMode(s: Stat): FileMode {
    match s
    case Synthetic(f) => Mode(f)
    case FromGit(m, _) => m
  }

  function StatSubmodule(s: Stat): Option<Submodule> {
    match s
    case Synthetic(_) => None
    case FromGit(_, sub) => sub
  }

  /** The two URL prefixes of the commit an entry belongs to. */
  datatype CommitUrls = CommitUrls(repoRevURL: string, canonicalRepoRevURL: string)

  /**
   * gitTreeEntryResolver: its commit's URLs, its path relative to the root,
   * its file information, and whether IsRoot() holds of it.
   */
  datatype TreeEntry = TreeEntry(commit: CommitUrls, path: string, stat: Stat, isRoot: bool)

  /** IsDirectory: the directory bit of the mode; a synthetic entry is a directory exactly when it was built as one. */
  function IsDirectory(e: TreeEntry): (r: bool)
    ensures e.stat.Synthetic? ==> (r <==> IsDir(e.stat.info))
    ensures e.stat.FromGit? ==> (r <==> e.stat.mode & ModeDir != 0)
  {
    ModeIsDir(StatMode(e.stat))
  }

  function SubmoduleOf(e: TreeEntry): Option<Submodule> {
    StatSubmodule(e.stat)
  }

  /** The entry's URL under `prefix`: the prefix itself for the root, else a tree or blob route. */
  function UrlPath(e: TreeEntry, prefix: string): (r: string)
    ensures prefix <= r
    ensures r == prefix <==> e.isRoot
  {
    if e.isRoot then prefix
    else prefix + "/-/" + (if IsDirectory(e) then "tree" else "blob") + "/" + e.path
  }

  /** The three shapes an entry URL takes. */
  lemma UrlPathShape(e: TreeEntry, prefix: string)
    ensures e.isRoot ==> UrlPath(e, prefix) == prefix
    ensures !e.isRoot && IsDirectory(e) ==> UrlPath(e, prefix) == prefix + "/-/tree/" + e.path
    ensures !e.isRoot && !IsDirectory(e) ==> UrlPath(e, prefix) == prefix + "/-/blob/" + e.path
  {
  }

  /**
   * Under one prefix the URL of a non-root entry tells its path and whether
   * it is a directory.
   */
  lemma UrlPathInjective(e1: TreeEntry, e2: TreeEntry, prefix: string)
    requires !e1.isRoot && !e2.isRoot
    requires UrlPath(e1, prefix) == UrlPath(e2, prefix)
    ensures e1.path == e2.path && IsDirectory(e1) == IsDirectory(e2)
  {
    var u := UrlPath(e1, prefix);
    var n := |prefix|;
    assert u[n + 3..n + 7] == if IsDirectory(e1) then "tree" else "blob";
    assert UrlPath(e2, prefix)[n + 3..n + 7] == if IsDirectory(e2) then "tree" else "blob";
    assert u[n + 8..] == e1.path;
    assert UrlPath(e2, prefix)[n + 8..] == e2.path;
  }

  /** Why a clone URL has no repository name. */
  datatype RepoNameError =
    | ResolverFailed(message: string)     // the code-host lookup itself returned an error
    | NoMatchingCodeHost(cloneURL: string)

  /**
   * cloneURLToRepoName over the code-host lookup `resolve`: the name the
   * lookup gives, unless it fails or gives the empty name.
   */
  function CloneURLToRepoName(resolve: string -> Result<string, string>, cloneURL: string): (r: Result<string, RepoNameError>)
    ensures r.Ok? <==> resolve(cloneURL).Ok? && resolve(cloneURL).value != ""
    ensures r.Ok? ==> r.value == resolve(cloneURL).value
    ensures resolve(cloneURL).Err? ==> r == Err(ResolverFailed(resolve(cloneURL).error))
    ensures resolve(cloneURL) == Ok("") ==> r == Err(NoMatchingCodeHost(cloneURL))
  {
    match resolve(cloneURL)
    case Err(e) => Err(ResolverFailed(e))
    case Ok(name) => if name == "" then Err(NoMatchingCodeHost(cloneURL)) else Ok(name)
  }

  /** The entry's URL: a submodule links to its own repository at the pinned commit. */
  function URL(e: TreeEntry, resolve: string -> Result<string, string>): (r: string)
    ensures SubmoduleOf(e).None? ==> e.commit.repoRevURL <= r && (r == e.commit.repoRevURL <==> e.isRoot)
    ensures SubmoduleOf(e).Some? ==> (r == "" <==> CloneURLToRepoName(resolve, SubmoduleOf(e).value.url).Err?)
  {
    match SubmoduleOf(e)
    case Some(sub) =>
      (match CloneURLToRepoName(resolve, sub.url)
       case Err(_) => ""
       case Ok(repoName) => "/" + repoName + "@" + sub.commit)
    case None => UrlPath(e, e.commit.repoRevURL)
  }

  /** CanonicalURL: the same route as URL, under the canonical prefix, and never a submodule link. */
  function CanonicalURL(e: TreeEntry): (r: string)
    ensures e.commit.canonicalRepoRevURL <= r
    ensures r == e.commit.canonicalRepoRevURL <==> e.isRoot
  {
    UrlPath(e, e.commit.canonicalRepoRevURL)
  }

  /**
   * A submodule's URL is empty exactly when its clone URL names no
   * repository, and otherwise is "/<repo>@<commit>".
   */
  lemma SubmoduleURL(e: TreeEntry, resolve: string -> Result<string, string>)
    requires SubmoduleOf(e).Some?
    ensures var sub := SubmoduleOf(e).value;
      var name := CloneURLToRepoName(resolve, sub.url);
      && (URL(e, resolve) == "" <==> name.Err?)
      && (name.Ok? ==> URL(e, resolve) == "/" + name.value + "@" + sub.commit)
  {
  }

  /**
   * Outside submodules, URL and CanonicalURL are the same route under the
   * two prefixes of the commit: after the prefix they agree character for
   * character, and they are equal when the prefixes are.
   */
  lemma URLAndCanonicalURL(e: TreeEntry, resolve: string -> Result<string, string>)
    requires SubmoduleOf(e).None?
    ensures URL(e, resolve) == UrlPath(e, e.commit.repoRevURL)
    ensures CanonicalURL(e) == UrlPath(e, e.commit.canonicalRepoRevURL)
    ensures var p, c := e.commit.repoRevURL, e.commit.canonicalRepoRevURL;
      URL(e, resolve)[|p|..] == CanonicalURL(e)[|c|..]
    ensures e.commit.repoRevURL == e.commit.canonicalRepoRevURL ==> URL(e, resolve) == CanonicalURL(e)
  {
  }
}
