/**
 * Option handling of the `paths` API (src/index.ts): the two built-in
 * conflict resolvers, the guard around a caller's resolver, and the
 * normalisation of `paths` entries.
 */
module LegacyOptions {
  import opened Wrappers
  import opened Paths

  type ConflictResolver = (string, string) -> string

  /** `conflictResolution`: a policy name or a function of the caller's. */
  datatype ConflictResolution =
    | OverwritePolicy
    | SkipPolicy
    | CustomPolicy(resolver: ConflictResolver)

  /**
   * The resolver the merge uses. The two built-ins are distinct objects that
   * the merge recognises by identity (`resolver !== conflictResolvers.overwrite`);
   * a caller's function is always wrapped.
   */
  datatype Resolver =
    | OverwriteResolver
    | SkipResolver
    | WrappedResolver(wrapped: ConflictResolver)

  /** The answer a resolver gives for a source and a destination. */
  function Apply(resolver: Resolver, source: string, dest: string): (r: string)
    ensures resolver.OverwriteResolver? ==> r == dest
    ensures resolver.SkipResolver? ==> r == source
  {
    match resolver
    case OverwriteResolver => dest
    case SkipResolver => source
    case WrappedResolver(f) => f(source, dest)
  }

  /** An answer a resolver may give: the source, the destination, or a sibling of the destination. */
  predicate Allowed(source: string, dest: string, answer: string)
  {
    answer == source || answer == dest || GetCurrentDir(answer) == GetCurrentDir(dest)
  }

  /** The guard `wrapperCustomResolver` puts around a caller's resolver, applied once. */
  function Guard(resolver: ConflictResolver, source: string, dest: string): (r: string)
    ensures Allowed(source, dest, r)
    ensures Allowed(source, dest, resolver(source, dest)) ==> r == resolver(source, dest)
    ensures !Allowed(source, dest, resolver(source, dest)) ==> r == dest
  {
    var finalDest := resolver(source, dest);
    if finalDest != source && finalDest != dest && GetCurrentDir(dest) != GetCurrentDir(finalDest)
    then dest
    else finalDest
  }

  /** `wrapperCustomResolver`: the caller's resolver behind the guard. */
  function WrapperCustomResolver(resolver: ConflictResolver): (r: ConflictResolver)
    ensures forall source, dest :: r(source, dest) == Guard(resolver, source, dest)
  {
    (source: string, dest: string) => Guard(resolver, source, dest)
  }

  /** Wrapping twice answers exactly as wrapping once. */
  lemma WrapIdempotent(resolver: ConflictResolver, source: string, dest: string)
    ensures WrapperCustomResolver(WrapperCustomResolver(resolver))(source, dest)
         == WrapperCustomResolver(resolver)(source, dest)
  {
    var once := WrapperCustomResolver(resolver);
    assert Allowed(source, dest, once(source, dest));
  }

  /** Every resolver the options can produce answers only what `Allowed` admits. */
  ghost predicate Guarded(resolver: Resolver)
  {
    forall source, dest :: Allowed(source, dest, Apply(resolver, source, dest))
  }

  /** A `paths` entry: a plain path, or a path below a root directory. */
  datatype PathEntry = PathString(path: string) | PathObject(rootDir: string, path: string)

  datatype ResolvedPath = ResolvedPath(rootDir: string, path: string, relativePath: string)

  datatype MergeDirsOptions = MergeDirsOptions(
    dest: string,
    paths: seq<PathEntry>,
    ignoreErrors: Option<bool>,
    ignoreEmptyFolders: Option<bool>,
    conflictResolution: Option<ConflictResolution>)

  datatype ResolvedMergeDirsOptions = ResolvedMergeDirsOptions(
    dest: string,
    paths: seq<ResolvedPath>,
    ignoreErrors: Option<bool>,
    ignoreEmptyFolders: Option<bool>,
    conflictResolution: Option<ConflictResolution>,
    conflictResolver: Resolver)

  /** `path.slice(0, -n)` for `0 <= n`; with `n == 0` JavaScript gives "". */
  function DropLast(path: string, n: nat): string
  {
    if n == 0 || n > |path| then "" else path[..|path| - n]
  }

  /**
   * One entry of `paths`, normalised. A plain entry is its own root and path
   * with no relative path. An entry with a root keeps the last segment of its
   * path as relative path, is found at `join(rootDir, path)`, and has as root
   * `rootDir` joined with the directory part of its path (with its trailing '/').
   */
  function ResolvePath(entry: PathEntry): (r: ResolvedPath)
    ensures entry.PathString? ==> r.rootDir == entry.path && r.path == entry.path && r.relativePath == ""
    ensures entry.PathObject? ==>
              && r.relativePath == GetFileName(entry.path)
              && '/' !in r.relativePath
              && r.path == PathJoin(entry.rootDir, entry.path)
              && ('/' !in entry.path ==> r.rootDir == PathJoin(entry.rootDir, ""))
              && ('/' in entry.path && r.relativePath != "" ==>
                    r.rootDir == PathJoin(entry.rootDir, GetCurrentDir(entry.path) + "/"))
  {
    match entry
    case PathString(p) => ResolvedPath(p, p, "")
    case PathObject(rootDir, path) =>
      var fileName := GetFileName(path);
      DirAndFileName(path);
      assert '/' in path && fileName != "" ==> DropLast(path, |fileName|) == GetCurrentDir(path) + "/" by {
        if '/' in path && fileName != "" {
          assert path == (GetCurrentDir(path) + "/") + fileName;
        }
      }
      ResolvedPath(PathJoin(rootDir, DropLast(path, |fileName|)), PathJoin(rootDir, path), fileName)
  }

  /** `resolveOptions` of src/index.ts. */
  function ResolveOptions(options: MergeDirsOptions): (r: ResolvedMergeDirsOptions)
    ensures r.dest == options.dest
    ensures r.ignoreErrors == options.ignoreErrors && r.ignoreEmptyFolders == options.ignoreEmptyFolders
    ensures r.conflictResolution == options.conflictResolution
    ensures |r.paths| == |options.paths|
    ensures forall i :: 0 <= i < |r.paths| ==> r.paths[i] == ResolvePath(options.paths[i])
    ensures options.conflictResolution in {None, Some(OverwritePolicy)} ==> r.conflictResolver == OverwriteResolver
    ensures options.conflictResolution == Some(SkipPolicy) ==> r.conflictResolver == SkipResolver
    ensures options.conflictResolution.Some? && options.conflictResolution.value.CustomPolicy? ==>
              r.conflictResolver == WrappedResolver(WrapperCustomResolver(options.conflictResolution.value.resolver))
    ensures Guarded(r.conflictResolver)
  {
    var resolver :=
      match options.conflictResolution
      case Some(CustomPolicy(f)) => WrappedResolver(WrapperCustomResolver(f))
      case Some(SkipPolicy) => SkipResolver
      case _ => OverwriteResolver;
    ResolvedMergeDirsOptions(
      options.dest,
      seq(|options.paths|, i requires 0 <= i < |options.paths| => ResolvePath(options.paths[i])),
      options.ignoreErrors,
      options.ignoreEmptyFolders,
      options.conflictResolution,
      resolver)
  }
}
