/**
 * The path-based merge of src/index.ts: `recursiveMerge` walks a source
 * tree, creates missing destination directories, consults the resolver only
 * when a destination file exists, and copies files. `Walk` states what one
 * call does to the file tree; `FileSystem.RecursiveMerge` does it in place
 * and is proved to agree with it.
 */
module LegacyMerge {
  import opened Wrappers
  import opened Paths
  import opened FileTree
  import opened LegacyOptions

  /** What stays fixed during one merge; `failing` are the sources whose copy fails. */
  datatype Config = Config(dest: string, resolver: Resolver, ignoreEmptyFolders: bool, failing: set<string>)

  /** The tree after a walk, and whether `mkdirSync` threw (which ends the whole merge). */
  datatype Outcome = Outcome(tree: Tree, thrown: bool)

  /** `path` is `dir` or lies below it. */
  predicate UnderEq(path: string, dir: string)
  {
    path == dir || (|path| > |dir| && path[..|dir|] == dir && path[|dir|] == '/')
  }

  /** Neither path lies inside the other. */
  predicate Apart(a: string, b: string)
  {
    !UnderEq(a, b) && !UnderEq(b, a)
  }

  lemma UnderEqTrans(a: string, b: string, c: string)
    requires UnderEq(a, b) && UnderEq(b, c)
    ensures UnderEq(a, c)
  {
    if a != b && b != c {
      assert a[..|c|] == a[..|b|][..|c|];
      assert a[|c|] == a[..|b|][|c|];
    }
  }

  /** Two directories that hold the same path are nested one in the other. */
  lemma UnderEqComparable(x: string, a: string, b: string)
    requires UnderEq(x, a) && UnderEq(x, b)
    ensures UnderEq(a, b) || UnderEq(b, a)
  {
    if x == a || x == b {
    } else if |a| <= |b| {
      assert b[..|a|] == x[..|b|][..|a|];
      if |a| < |b| {
        assert b[|a|] == x[..|b|][|a|];
      }
    } else {
      assert a[..|b|] == x[..|a|][..|b|];
      assert a[|b|] == x[..|a|][|b|];
    }
  }

  /** An entry of a directory apart from the destination is apart from it too. */
  lemma ChildApart(path: string, name: string, dest: string)
    requires Apart(path, dest) && path != "" && name != ""
    ensures Apart(PathJoin(path, name), dest)
    ensures |PathJoin(path, name)| > |path|
  {
    var child := PathJoin(path, name);
    assert child == path + "/" + name;
    assert child[..|path|] == path;
    assert UnderEq(child, path);
    if UnderEq(child, dest) {
      UnderEqComparable(child, path, dest);
    }
    if UnderEq(dest, child) {
      UnderEqTrans(dest, child, path);
    }
  }

  /** `join(dest, rel)` and its directory lie inside `dest`. */
  lemma InsideDest(dest: string, rel: string)
    requires dest != "" && rel != ""
    ensures UnderEq(PathJoin(dest, rel), dest)
    ensures UnderEq(GetCurrentDir(PathJoin(dest, rel)), dest)
  {
    var p := dest + "/" + rel;
    assert p[..|dest|] == dest;
    DirAndFileNameOfJoin(dest, rel);
    if '/' in rel {
      var q := dest + "/" + GetCurrentDir(rel);
      assert q[..|dest|] == dest;
    }
  }

  /** A sibling of a path inside `dest` is inside `dest`. */
  lemma SiblingInsideDest(target: string, sibling: string, dest: string)
    requires dest != "" && UnderEq(GetCurrentDir(target), dest)
    requires GetCurrentDir(sibling) == GetCurrentDir(target)
    ensures UnderEq(sibling, dest)
  {
    DirAndFileName(sibling);
    var dir := GetCurrentDir(sibling);
    assert sibling == dir + "/" + GetFileName(sibling);
    assert sibling[..|dir|] == dir;
    UnderEqTrans(sibling, dir, dest);
  }

  /** Paths outside the destination are at most `bound` long. */
  ghost predicate Bounded(tree: Tree, dest: string, bound: nat)
  {
    forall k :: k in tree && !UnderEq(k, dest) ==> |k| <= bound
  }

  /** Outside the destination, files have a name and directories list non-empty names. */
  ghost predicate SourceShaped(tree: Tree, dest: string)
  {
    forall k :: k in tree && !UnderEq(k, dest) ==>
      GetFileName(k) != "" && (tree[k].Dir? ==> forall n :: n in tree[k].children ==> n != "")
  }

  /** What a walk needs of its configuration and of the tree. */
  ghost predicate Ready(c: Config, tree: Tree, bound: nat)
  {
    && c.dest != ""
    && "" !in tree
    && Guarded(c.resolver)
    && Bounded(tree, c.dest, bound)
    && SourceShaped(tree, c.dest)
  }

  /** Nothing outside the destination is created, removed or changed. */
  ghost predicate SameOutside(before: Tree, after: Tree, dest: string)
  {
    && (forall k :: k in before && !UnderEq(k, dest) ==> k in after && after[k] == before[k])
    && (forall k :: k in after && !UnderEq(k, dest) ==> k in before)
  }

  /** Nothing is removed, a file stays a file, and a directory stays a directory whose listing only grows. */
  ghost predicate Grows(before: Tree, after: Tree)
  {
    forall k :: k in before ==>
      && k in after
      && (before[k].File? ==> after[k].File?)
      && (before[k].Dir? ==> after[k].Dir? && before[k].children <= after[k].children)
  }

  /** What a walk keeps: everything outside `dest`, `dest`'s own absence, and what `Grows` says. */
  ghost predicate Kept(before: Tree, after: Tree, dest: string)
  {
    SameOutside(before, after, dest) && Grows(before, after) && (dest in after ==> dest in before)
  }

  lemma KeptTrans(a: Tree, b: Tree, c: Tree, dest: string)
    requires Kept(a, b, dest) && Kept(b, c, dest)
    ensures Kept(a, c, dest)
  {
    forall k | k in a && a[k].Dir?
      ensures c[k].Dir? && a[k].children <= c[k].children
    {
      assert a[k].children <= b[k].children <= c[k].children;
    }
  }

  lemma ReadyKept(c: Config, before: Tree, after: Tree, bound: nat)
    requires Ready(c, before, bound) && SameOutside(before, after, c.dest)
    ensures Ready(c, after, bound)
  {
  }

  /**
   * Storing a new entry, or a file over a file, strictly inside the
   * destination keeps the rest.
   */
  lemma AddInsideKept(tree: Tree, path: string, entry: Entry, dest: string)
    requires UnderEq(path, dest) && UnderEq(GetCurrentDir(path), dest) && path != dest
    requires !IsDir(tree, path) && (path in tree ==> entry.File?)
    ensures Kept(tree, AddEntry(tree, path, entry), dest)
  {
  }

  /** Where the walk measures progress: paths outside the destination grow towards `bound`. */
  function Measure(path: string, bound: nat): nat
  {
    if |path| <= bound then bound + 1 - |path| else 0
  }

  /**
   * Where a file goes before the resolver is asked: `join(dest, relativePath
   * || getFileName(path))`, which lies inside `dest`, as does its directory.
   */
  function FileDest(c: Config, path: string, relativePath: string): (destPath: string)
    ensures var name := if relativePath != "" then relativePath else GetFileName(path);
            c.dest != "" && name != "" ==> UnderEq(destPath, c.dest) && UnderEq(GetCurrentDir(destPath), c.dest)
  {
    var name := if relativePath != "" then relativePath else GetFileName(path);
    assert c.dest != "" && name != "" ==>
             UnderEq(PathJoin(c.dest, name), c.dest) && UnderEq(GetCurrentDir(PathJoin(c.dest, name)), c.dest) by {
      if c.dest != "" && name != "" { InsideDest(c.dest, name); }
    }
    PathJoin(c.dest, name)
  }

  /**
   * Where a file goes: a resolver other than overwrite is asked only when
   * the target exists, and a guarded resolver's answer is allowed.
   */
  function FinalDest(c: Config, tree: Tree, path: string, relativePath: string): (chosen: string)
    ensures FileDest(c, path, relativePath) !in tree || c.resolver.OverwriteResolver? ==>
              chosen == FileDest(c, path, relativePath)
    ensures Guarded(c.resolver) ==> Allowed(path, FileDest(c, path, relativePath), chosen)
  {
    var destPath := FileDest(c, path, relativePath);
    if !c.resolver.OverwriteResolver? && destPath in tree then Apply(c.resolver, path, destPath)
    else destPath
  }

  /**
   * The file branch: copy unless the resolver answered the source; a failed
   * copy is only logged. At most the chosen path is written (and its
   * parent's listing extended).
   */
  function CopyStep(c: Config, tree: Tree, path: string, relativePath: string): (r: Tree)
    requires path in tree && tree[path].File?
    ensures var chosen := FinalDest(c, tree, path, relativePath);
            chosen == path || CopyFails(tree, c.failing, path, chosen) ==> r == tree
    ensures var chosen := FinalDest(c, tree, path, relativePath);
            chosen != path && !CopyFails(tree, c.failing, path, chosen) ==> r == AddEntry(tree, chosen, tree[path])
  {
    var destPath := FinalDest(c, tree, path, relativePath);
    if destPath != path then CopyFile(tree, c.failing, path, destPath) else tree
  }

  lemma CopyStepKept(c: Config, tree: Tree, path: string, relativePath: string)
    requires c.dest != "" && Guarded(c.resolver)
    requires path in tree && tree[path].File? && GetFileName(path) != ""
    ensures Kept(tree, CopyStep(c, tree, path, relativePath), c.dest)
  {
    var first := FileDest(c, path, relativePath);
    InsideDest(c.dest, if relativePath != "" then relativePath else GetFileName(path));
    var destPath := FinalDest(c, tree, path, relativePath);
    if destPath != path && destPath != first {
      assert Allowed(path, first, destPath);
      SiblingInsideDest(first, destPath, c.dest);
    }
    if destPath != path && !CopyFails(tree, c.failing, path, destPath) {
      assert UnderEq(GetCurrentDir(destPath), c.dest);
      DirAndFileName(destPath);
      AddInsideKept(tree, destPath, File(tree[path].content), c.dest);
    }
  }

  /** The tree after `recursiveMerge(path, rootDir, relativePath)`. */
  ghost function Walk(c: Config, tree: Tree, path: string, relativePath: string, bound: nat): (o: Outcome)
    requires Ready(c, tree, bound) && Apart(path, c.dest)
    ensures Kept(tree, o.tree, c.dest)
    decreases Measure(path, bound), 1
  {
    if path !in tree then Outcome(tree, false)
    else match tree[path]
      case Dir(files) =>
        if |files| == 0 && c.ignoreEmptyFolders then Outcome(tree, false)
        else if relativePath != "" && PathJoin(c.dest, relativePath) !in tree then
          var destPath := PathJoin(c.dest, relativePath);
          match Mkdir(tree, destPath)
          case None => Outcome(tree, true)
          case Some(made) =>
            InsideDest(c.dest, relativePath);
            AddInsideKept(tree, destPath, Dir([]), c.dest);
            ReadyKept(c, tree, made, bound);
            var o := WalkChildren(c, made, path, relativePath, files, bound);
            KeptTrans(tree, made, o.tree, c.dest);
            o
        else WalkChildren(c, tree, path, relativePath, files, bound)
      case File(_) =>
        CopyStepKept(c, tree, path, relativePath);
        Outcome(CopyStep(c, tree, path, relativePath), false)
  }

  /** `files.forEach(...)`: the entries in listing order, until one throws. */
  ghost function WalkChildren(c: Config, tree: Tree, path: string, relativePath: string,
                              files: seq<string>, bound: nat): (o: Outcome)
    requires Ready(c, tree, bound) && Apart(path, c.dest) && path != "" && |path| <= bound
    requires forall n :: n in files ==> n != ""
    ensures Kept(tree, o.tree, c.dest)
    decreases Measure(path, bound), 0, |files|
  {
    if |files| == 0 then Outcome(tree, false)
    else
      assert files[0] in files;
      ChildApart(path, files[0], c.dest);
      var o := Walk(c, tree, PathJoin(path, files[0]), PathJoin(relativePath, files[0]), bound);
      if o.thrown then o
      else
        ReadyKept(c, tree, o.tree, bound);
        assert forall n :: n in files[1..] ==> n in files;
        var rest := WalkChildren(c, o.tree, path, relativePath, files[1..], bound);
        KeptTrans(tree, o.tree, rest.tree, c.dest);
        rest
  }

  /** One step of `files.forEach(...)`: walk the first entry, then the rest unless it threw. */
  lemma WalkChildrenStep(c: Config, tree: Tree, path: string, relativePath: string,
                         files: seq<string>, bound: nat)
    requires Ready(c, tree, bound) && Apart(path, c.dest) && path != "" && |path| <= bound
    requires forall n :: n in files ==> n != ""
    requires |files| > 0 && Apart(PathJoin(path, files[0]), c.dest)
    ensures var o := Walk(c, tree, PathJoin(path, files[0]), PathJoin(relativePath, files[0]), bound);
            && Ready(c, o.tree, bound)
            && (forall n :: n in files[1..] ==> n != "")
            && WalkChildren(c, tree, path, relativePath, files, bound)
               == if o.thrown then o else WalkChildren(c, o.tree, path, relativePath, files[1..], bound)
  {
    var o := Walk(c, tree, PathJoin(path, files[0]), PathJoin(relativePath, files[0]), bound);
    ReadyKept(c, tree, o.tree, bound);
    assert forall n :: n in files[1..] ==> n in files;
  }

  /**
   * Progress of the children loop: the entries before `i` have been walked
   * from `start` to `tree`, and what is left to do is the walk of the rest.
   */
  ghost predicate ChildrenPending(c: Config, start: Tree, tree: Tree, path: string, relativePath: string,
                                  files: seq<string>, i: nat, bound: nat)
  {
    && Apart(path, c.dest) && path != "" && |path| <= bound && i <= |files|
    && Ready(c, start, bound) && Ready(c, tree, bound)
    && (forall n :: n in files ==> n != "")
    && (forall n :: n in files[i..] ==> n != "")
    && WalkChildren(c, start, path, relativePath, files, bound)
       == WalkChildren(c, tree, path, relativePath, files[i..], bound)
  }

  lemma ChildrenPendingStart(c: Config, tree: Tree, path: string, relativePath: string,
                             files: seq<string>, bound: nat)
    requires Ready(c, tree, bound) && Apart(path, c.dest) && path != "" && |path| <= bound
    requires forall n :: n in files ==> n != ""
    ensures ChildrenPending(c, tree, tree, path, relativePath, files, 0, bound)
  {
    assert files[0..] == files;
  }

  /** Walking entry `i` either throws, which ends the loop with its outcome, or moves on to `i + 1`. */
  lemma ChildrenPendingStep(c: Config, start: Tree, tree: Tree, path: string, relativePath: string,
                            files: seq<string>, i: nat, bound: nat)
    requires ChildrenPending(c, start, tree, path, relativePath, files, i, bound) && i < |files|
    ensures Apart(PathJoin(path, files[i]), c.dest) && Ready(c, tree, bound)
    ensures Measure(PathJoin(path, files[i]), bound) < Measure(path, bound)
    ensures var o := Walk(c, tree, PathJoin(path, files[i]), PathJoin(relativePath, files[i]), bound);
            && (o.thrown ==> WalkChildren(c, start, path, relativePath, files, bound) == o)
            && (!o.thrown ==> ChildrenPending(c, start, o.tree, path, relativePath, files, i + 1, bound))
  {
    var rest := files[i..];
    assert rest[0] == files[i] && rest[1..] == files[i + 1..];
    assert rest[0] in rest;
    ChildApart(path, files[i], c.dest);
    WalkChildrenStep(c, tree, path, relativePath, rest, bound);
  }

  /** What the call for entry `i` needs: it is apart from `dest`, the tree is ready, and the measure drops. */
  lemma ChildrenPendingCall(c: Config, start: Tree, tree: Tree, path: string, relativePath: string,
                            files: seq<string>, i: nat, bound: nat)
    requires ChildrenPending(c, start, tree, path, relativePath, files, i, bound) && i < |files|
    ensures Apart(PathJoin(path, files[i]), c.dest) && Ready(c, tree, bound)
    ensures Measure(PathJoin(path, files[i]), bound) < Measure(path, bound)
  {
    assert files[i] in files;
    ChildApart(path, files[i], c.dest);
  }

  /** After the call for entry `i`: a throw ends the loop with its outcome, otherwise the loop moves on. */
  lemma ChildrenPendingNext(c: Config, start: Tree, before: Tree, after: Tree, thrown: bool, path: string,
                            relativePath: string, files: seq<string>, i: nat, bound: nat)
    requires ChildrenPending(c, start, before, path, relativePath, files, i, bound) && i < |files|
    requires Apart(PathJoin(path, files[i]), c.dest)
    requires Outcome(after, thrown) == Walk(c, before, PathJoin(path, files[i]), PathJoin(relativePath, files[i]), bound)
    ensures thrown ==> WalkChildren(c, start, path, relativePath, files, bound) == Outcome(after, thrown)
    ensures !thrown ==> ChildrenPending(c, start, after, path, relativePath, files, i + 1, bound)
  {
    ChildrenPendingStep(c, start, before, path, relativePath, files, i, bound);
  }

  lemma ChildrenPendingEnd(c: Config, start: Tree, tree: Tree, path: string, relativePath: string,
                           files: seq<string>, bound: nat)
    requires ChildrenPending(c, start, tree, path, relativePath, files, |files|, bound)
    ensures WalkChildren(c, start, path, relativePath, files, bound) == Outcome(tree, false)
  {
    assert files[|files|..] == [];
  }

  /** `paths.forEach(...)` at the top level: every resolved path in order, until one throws. */
  ghost function MergePaths(c: Config, tree: Tree, paths: seq<ResolvedPath>, bound: nat): (o: Outcome)
    requires Ready(c, tree, bound)
    requires forall i :: 0 <= i < |paths| ==> Apart(paths[i].path, c.dest)
    ensures Kept(tree, o.tree, c.dest)
    decreases |paths|
  {
    if |paths| == 0 then Outcome(tree, false)
    else
      var o := Walk(c, tree, paths[0].path, paths[0].relativePath, bound);
      if o.thrown then o
      else
        ReadyKept(c, tree, o.tree, bound);
        var rest := MergePaths(c, o.tree, paths[1..], bound);
        KeptTrans(tree, o.tree, rest.tree, c.dest);
        rest
  }

  /** One step of the top-level `paths.forEach(...)`. */
  lemma MergePathsStep(c: Config, tree: Tree, paths: seq<ResolvedPath>, bound: nat)
    requires Ready(c, tree, bound)
    requires forall i :: 0 <= i < |paths| ==> Apart(paths[i].path, c.dest)
    requires |paths| > 0
    ensures var o := Walk(c, tree, paths[0].path, paths[0].relativePath, bound);
            && Ready(c, o.tree, bound)
            && MergePaths(c, tree, paths, bound)
               == if o.thrown then o else MergePaths(c, o.tree, paths[1..], bound)
  {
    var o := Walk(c, tree, paths[0].path, paths[0].relativePath, bound);
    ReadyKept(c, tree, o.tree, bound);
  }

  /** Invariant of the `paths.forEach` loop of `mergeDirs`: the entries from `i` on are still to merge. */
  ghost predicate PathsPending(c: Config, start: Tree, tree: Tree, paths: seq<ResolvedPath>, i: nat, bound: nat)
  {
    && i <= |paths|
    && Ready(c, start, bound) && Ready(c, tree, bound)
    && (forall j :: 0 <= j < |paths| ==> Apart(paths[j].path, c.dest))
    && (forall j :: 0 <= j < |paths[i..]| ==> Apart(paths[i..][j].path, c.dest))
    && MergePaths(c, start, paths, bound) == MergePaths(c, tree, paths[i..], bound)
  }

  lemma PathsPendingStart(c: Config, tree: Tree, paths: seq<ResolvedPath>, bound: nat)
    requires Ready(c, tree, bound)
    requires forall j :: 0 <= j < |paths| ==> Apart(paths[j].path, c.dest)
    ensures PathsPending(c, tree, tree, paths, 0, bound)
  {
    assert paths[0..] == paths;
  }

  /** Merging entry `i` either throws, which ends the loop with its outcome, or moves on to `i + 1`. */
  lemma PathsPendingStep(c: Config, start: Tree, tree: Tree, paths: seq<ResolvedPath>, i: nat, bound: nat)
    requires PathsPending(c, start, tree, paths, i, bound) && i < |paths|
    ensures Apart(paths[i].path, c.dest)
    ensures var o := Walk(c, tree, paths[i].path, paths[i].relativePath, bound);
            && (o.thrown ==> MergePaths(c, start, paths, bound) == o)
            && (!o.thrown ==> PathsPending(c, start, o.tree, paths, i + 1, bound))
  {
    var rest := paths[i..];
    assert rest[0] == paths[i] && rest[1..] == paths[i + 1..];
    MergePathsStep(c, tree, rest, bound);
  }

  lemma PathsPendingEnd(c: Config, start: Tree, tree: Tree, paths: seq<ResolvedPath>, bound: nat)
    requires PathsPending(c, start, tree, paths, |paths|, bound)
    ensures MergePaths(c, start, paths, bound) == Outcome(tree, false)
  {
    assert paths[|paths|..] == [];
  }

  /** An upper bound on the lengths of a finite set of paths. */
  ghost function LenBound(keys: set<string>): (b: nat)
    ensures forall k :: k in keys ==> |k| <= b
  {
    if keys == {} then 0
    else
      var k :| k in keys;
      var b := LenBound(keys - {k});
      if |k| > b then |k| else b
  }

  /**
   * What a merge needs: a destination, a tree whose sources are well formed,
   * and source paths that neither contain the destination nor lie inside it.
   */
  ghost predicate MergeReady(options: MergeDirsOptions, tree: Tree)
  {
    && options.dest != ""
    && "" !in tree
    && SourceShaped(tree, options.dest)
    && forall i :: 0 <= i < |options.paths| ==> Apart(ResolvePath(options.paths[i]).path, options.dest)
  }

  /** The configuration `mergeDirs` runs with. */
  function ConfigOf(options: MergeDirsOptions, failing: set<string>): (c: Config)
    ensures c.dest == options.dest
    ensures c.ignoreEmptyFolders == (options.ignoreEmptyFolders == Some(true))
  {
    var resolved := ResolveOptions(options);
    Config(resolved.dest, resolved.conflictResolver, resolved.ignoreEmptyFolders.GetOr(false), failing)
  }

  /** A merge-ready tree is ready for every resolved path, bounded by its longest key. */
  lemma MergeReadyStart(options: MergeDirsOptions, tree: Tree, failing: set<string>)
    requires MergeReady(options, tree)
    ensures var c := ConfigOf(options, failing);
            var paths := ResolveOptions(options).paths;
            && Ready(c, tree, LenBound(tree.Keys))
            && forall i :: 0 <= i < |paths| ==> Apart(paths[i].path, c.dest)
  {
    var paths := ResolveOptions(options).paths;
    forall i | 0 <= i < |paths|
      ensures Apart(paths[i].path, options.dest)
    {
      assert paths[i] == ResolvePath(options.paths[i]);
    }
  }

  /** The tree after `mergeDirs(options)`. */
  ghost function MergeDirsResult(options: MergeDirsOptions, tree: Tree, failing: set<string>): (o: Outcome)
    requires MergeReady(options, tree)
    ensures Kept(tree, o.tree, options.dest)
  {
    MergeReadyStart(options, tree, failing);
    MergePaths(ConfigOf(options, failing), tree, ResolveOptions(options).paths, LenBound(tree.Keys))
  }

  /** `mergeDirs` with a single entry in `paths` is one `recursiveMerge` of that entry. */
  lemma SinglePathMerge(options: MergeDirsOptions, tree: Tree, failing: set<string>)
    requires MergeReady(options, tree) && |options.paths| == 1
    ensures var p := ResolvePath(options.paths[0]);
            Apart(p.path, options.dest)
            && MergeDirsResult(options, tree, failing)
               == Walk(ConfigOf(options, failing), tree, p.path, p.relativePath, LenBound(tree.Keys))
  {
    var c := ConfigOf(options, failing);
    var paths := ResolveOptions(options).paths;
    var bound := LenBound(tree.Keys);
    MergeReadyStart(options, tree, failing);
    MergePathsStep(c, tree, paths, bound);
    assert paths[1..] == [];
  }

  /** `ignoreErrors` changes nothing: `mergeDirs` gives the same outcome whatever it is. */
  lemma IgnoreErrorsIrrelevant(options: MergeDirsOptions, tree: Tree, failing: set<string>, ignoreErrors: Option<bool>)
    requires MergeReady(options, tree)
    ensures MergeReady(options.(ignoreErrors := ignoreErrors), tree)
    ensures MergeDirsResult(options.(ignoreErrors := ignoreErrors), tree, failing) == MergeDirsResult(options, tree, failing)
  {
    var other := options.(ignoreErrors := ignoreErrors);
    assert ResolveOptions(other).paths == ResolveOptions(options).paths;
    assert ConfigOf(other, failing) == ConfigOf(options, failing);
  }

  /** A missing source changes nothing, and so does an empty directory when empty folders are ignored. */
  lemma NoOpCases(c: Config, tree: Tree, path: string, relativePath: string, bound: nat)
    requires Ready(c, tree, bound) && Apart(path, c.dest)
    requires path !in tree || (tree[path] == Dir([]) && c.ignoreEmptyFolders)
    ensures Walk(c, tree, path, relativePath, bound) == Outcome(tree, false)
  {
  }

  /**
   * A directory with a relative path whose target `join(dest, relativePath)`
   * is absent: `mkdirSync` creates it, its entries are walked on the tree
   * holding the new directory, and it is still a directory afterwards.
   * `mkdirSync` throws when the target's parent is not a directory: that
   * changes nothing and ends the merge.
   */
  lemma DirectoryCreated(c: Config, tree: Tree, path: string, relativePath: string, bound: nat)
    requires Ready(c, tree, bound) && Apart(path, c.dest)
    requires path in tree && tree[path].Dir? && relativePath != ""
    requires !(|tree[path].children| == 0 && c.ignoreEmptyFolders)
    requires PathJoin(c.dest, relativePath) !in tree
    ensures var o := Walk(c, tree, path, relativePath, bound);
            var destPath := PathJoin(c.dest, relativePath);
            && (!ParentIsDir(tree, destPath) ==> o == Outcome(tree, true))
            && (ParentIsDir(tree, destPath) ==>
                  && Ready(c, AddEntry(tree, destPath, Dir([])), bound)
                  && o == WalkChildren(c, AddEntry(tree, destPath, Dir([])), path, relativePath, tree[path].children, bound)
                  && IsDir(o.tree, destPath))
  {
    var destPath := PathJoin(c.dest, relativePath);
    if ParentIsDir(tree, destPath) {
      var made := AddEntry(tree, destPath, Dir([]));
      InsideDest(c.dest, relativePath);
      AddInsideKept(tree, destPath, Dir([]), c.dest);
      ReadyKept(c, tree, made, bound);
      var o := WalkChildren(c, made, path, relativePath, tree[path].children, bound);
      assert Walk(c, tree, path, relativePath, bound) == o;
      assert made[destPath].Dir?;
    }
  }

  /**
   * A directory with a relative path whose target already exists: nothing
   * is created for it, its entries are walked on the tree as it is, and an
   * existing directory there keeps its entries.
   */
  lemma DirectoryExisting(c: Config, tree: Tree, path: string, relativePath: string, bound: nat)
    requires Ready(c, tree, bound) && Apart(path, c.dest)
    requires path in tree && tree[path].Dir? && relativePath != ""
    requires !(|tree[path].children| == 0 && c.ignoreEmptyFolders)
    requires PathJoin(c.dest, relativePath) in tree
    ensures var o := Walk(c, tree, path, relativePath, bound);
            var destPath := PathJoin(c.dest, relativePath);
            && o == WalkChildren(c, tree, path, relativePath, tree[path].children, bound)
            && destPath in o.tree
            && (IsDir(tree, destPath) ==> IsDir(o.tree, destPath) && tree[destPath].children <= o.tree[destPath].children)
  {
  }

  /**
   * A directory given as a plain path (empty relative path) is not
   * recreated: its entries are walked with their own names as relative
   * paths, so they land directly under `dest`.
   */
  lemma PlainDirectoryMergesIntoDest(c: Config, tree: Tree, path: string, bound: nat)
    requires Ready(c, tree, bound) && Apart(path, c.dest)
    requires path in tree && tree[path].Dir?
    requires !(|tree[path].children| == 0 && c.ignoreEmptyFolders)
    ensures Walk(c, tree, path, "", bound) == WalkChildren(c, tree, path, "", tree[path].children, bound)
    ensures forall n :: n in tree[path].children ==> PathJoin("", n) == n
  {
  }

  /**
   * The file branch. The resolver is asked only when the destination exists
   * and is not the overwrite resolver; an answer equal to the source writes
   * nothing; a failed copy changes nothing and does not stop the merge;
   * otherwise the chosen path receives the source's content.
   */
  lemma FileBranch(c: Config, tree: Tree, path: string, relativePath: string, bound: nat)
    requires Ready(c, tree, bound) && Apart(path, c.dest)
    requires path in tree && tree[path].File?
    ensures var o := Walk(c, tree, path, relativePath, bound);
            var first := FileDest(c, path, relativePath);
            var chosen := FinalDest(c, tree, path, relativePath);
            && !o.thrown
            && (first !in tree || c.resolver.OverwriteResolver? ==> chosen == first)
            && (first in tree && !c.resolver.OverwriteResolver? ==> chosen == Apply(c.resolver, path, first))
            && Allowed(path, first, chosen)
            && (chosen == path ==> o.tree == tree)
            && (chosen != path && CopyFails(tree, c.failing, path, chosen) ==> o.tree == tree)
            && (chosen != path && !CopyFails(tree, c.failing, path, chosen) ==>
                  chosen in o.tree && o.tree[chosen] == tree[path]
                  && o.tree == AddEntry(tree, chosen, tree[path]))
  {
  }

  /** Where the entries of a directory land: `d/<name>` for each name. */
  ghost function Landing(d: string, files: seq<string>): set<string>
  {
    set n | n in files :: PathJoin(d, n)
  }

  /**
   * Entries that the landing lemmas follow: each is a file with a name
   * without '/', its copy does not fail, and nothing at `d/<name>` is a
   * directory.
   */
  ghost predicate FileEntries(c: Config, tree: Tree, path: string, d: string, files: seq<string>)
  {
    forall n :: n in files ==>
      && n != "" && '/' !in n
      && PathJoin(path, n) in tree && tree[PathJoin(path, n)].File?
      && PathJoin(path, n) !in c.failing
      && !IsDir(tree, PathJoin(d, n))
  }

  /** Every entry of `path` has its content, taken from `before`, at `d/<name>` in `after`. */
  ghost predicate Landed(before: Tree, after: Tree, path: string, d: string, files: seq<string>)
  {
    forall n :: n in files ==>
      PathJoin(path, n) in before && PathJoin(d, n) in after && after[PathJoin(d, n)] == before[PathJoin(path, n)]
  }

  /** Two entries of one directory land at the same path only if they have the same name. */
  lemma LandingInjective(d: string, m: string, n: string)
    requires d != "" && m != "" && n != "" && PathJoin(d, m) == PathJoin(d, n)
    ensures m == n
  {
    assert m == (d + "/" + m)[|d| + 1..];
    assert n == (d + "/" + n)[|d| + 1..];
  }

  /**
   * The entry `n` of a directory walked with relative path `relativePath`
   * goes to `d/n`, where `d` is the directory the walk merges into; `d/n`
   * lies inside `dest` and its directory is `d`.
   */
  lemma ChildTarget(c: Config, path: string, relativePath: string, d: string, n: string)
    requires c.dest != "" && n != "" && '/' !in n
    requires d == if relativePath == "" then c.dest else PathJoin(c.dest, relativePath)
    ensures FileDest(c, PathJoin(path, n), PathJoin(relativePath, n)) == PathJoin(d, n)
    ensures d != "" && UnderEq(d, c.dest) && UnderEq(PathJoin(d, n), c.dest)
    ensures GetCurrentDir(PathJoin(d, n)) == d
  {
    if relativePath != "" {
      InsideDest(c.dest, relativePath);
      assert c.dest + "/" + (relativePath + "/" + n) == (c.dest + "/" + relativePath) + "/" + n;
    }
    DirAndFileNameOfJoin(d, n);
    var target := d + "/" + n;
    assert target[..|d|] == d;
    UnderEqTrans(target, d, c.dest);
  }

  /**
   * With the overwrite resolver, the entry `n` of a directory whose entries
   * are merged into the directory `d` is copied to `d/n`, and nothing throws.
   */
  lemma ChildFileLands(c: Config, tree: Tree, path: string, relativePath: string, d: string, n: string, bound: nat)
    requires Ready(c, tree, bound) && Apart(path, c.dest) && path != ""
    requires c.resolver == OverwriteResolver
    requires d == if relativePath == "" then c.dest else PathJoin(c.dest, relativePath)
    requires IsDir(tree, d) && FileEntries(c, tree, path, d, [n])
    ensures Apart(PathJoin(path, n), c.dest)
    ensures d != "" && UnderEq(d, c.dest) && UnderEq(PathJoin(d, n), c.dest) && GetCurrentDir(PathJoin(d, n)) == d
    ensures Walk(c, tree, PathJoin(path, n), PathJoin(relativePath, n), bound)
         == Outcome(AddEntry(tree, PathJoin(d, n), tree[PathJoin(path, n)]), false)
  {
    assert n in [n];
    ChildApart(path, n, c.dest);
    ChildTarget(c, path, relativePath, d, n);
    var child, rel, target := PathJoin(path, n), PathJoin(relativePath, n), PathJoin(d, n);
    FileBranch(c, tree, child, rel, bound);
    assert FinalDest(c, tree, child, rel) == target;
    assert target != child;
    assert ParentIsDir(tree, target);
  }

  /** After entry `n` has landed, the remaining entries still meet FileEntries and `d` is a directory. */
  lemma FileEntriesAfterLanding(c: Config, tree: Tree, path: string, d: string, n: string, rest: seq<string>)
    requires Apart(path, c.dest) && path != "" && d != "" && UnderEq(d, c.dest)
    requires GetCurrentDir(PathJoin(d, n)) == d && UnderEq(PathJoin(d, n), c.dest)
    requires IsDir(tree, d) && FileEntries(c, tree, path, d, rest) && n != ""
    requires PathJoin(path, n) in tree && tree[PathJoin(path, n)].File?
    ensures var after := AddEntry(tree, PathJoin(d, n), tree[PathJoin(path, n)]);
            IsDir(after, d) && FileEntries(c, after, path, d, rest)
            && forall m :: m in rest ==> after[PathJoin(path, m)] == tree[PathJoin(path, m)]
  {
    var target := PathJoin(d, n);
    var after := AddEntry(tree, target, tree[PathJoin(path, n)]);
    forall m | m in rest
      ensures PathJoin(path, m) in after && after[PathJoin(path, m)] == tree[PathJoin(path, m)]
      ensures !IsDir(after, PathJoin(d, m))
    {
      ChildApart(path, m, c.dest);
      assert PathJoin(path, m) != target;
      assert PathJoin(path, m) != d;
      if PathJoin(d, m) != target {
        assert |PathJoin(d, m)| > |d|;
      }
    }
  }

  /**
   * With the overwrite resolver, walking entries that are files into the
   * directory `d` puts each one's content at `d/<name>`, never throws, and
   * leaves every other file as it was.
   */
  lemma {:induction false} WalkChildrenFilesLand(c: Config, tree: Tree, path: string, relativePath: string,
                                                 d: string, files: seq<string>, bound: nat)
    requires Ready(c, tree, bound) && Apart(path, c.dest) && path != "" && |path| <= bound
    requires c.resolver == OverwriteResolver
    requires d == if relativePath == "" then c.dest else PathJoin(c.dest, relativePath)
    requires IsDir(tree, d) && FileEntries(c, tree, path, d, files)
    ensures var o := WalkChildren(c, tree, path, relativePath, files, bound);
            && !o.thrown
            && Landed(tree, o.tree, path, d, files)
            && forall k :: k in tree && tree[k].File? && k !in Landing(d, files) ==> k in o.tree && o.tree[k] == tree[k]
    decreases |files|
  {
    if |files| > 0 {
      var n, rest := files[0], files[1..];
      assert n in files;
      assert forall m :: m in rest ==> m in files;
      assert FileEntries(c, tree, path, d, [n]);
      ChildFileLands(c, tree, path, relativePath, d, n, bound);
      WalkChildrenStep(c, tree, path, relativePath, files, bound);
      var child, target := PathJoin(path, n), PathJoin(d, n);
      var mid := AddEntry(tree, target, tree[child]);
      FileEntriesAfterLanding(c, tree, path, d, n, rest);
      WalkChildrenFilesLand(c, mid, path, relativePath, d, rest, bound);
      var o := WalkChildren(c, mid, path, relativePath, rest, bound);
      assert WalkChildren(c, tree, path, relativePath, files, bound) == o;
      forall k | k in tree && tree[k].File? && k !in Landing(d, files)
        ensures k in o.tree && o.tree[k] == tree[k]
      {
        assert k != target;
        assert k != d;
        assert k !in Landing(d, rest);
      }
      forall m | m in files
        ensures PathJoin(path, m) in tree && PathJoin(d, m) in o.tree && o.tree[PathJoin(d, m)] == tree[PathJoin(path, m)]
      {
        if m in rest {
        } else if target in Landing(d, rest) {
          var m' :| m' in rest && PathJoin(d, m') == target;
          LandingInjective(d, m', n);
        } else {
          assert m == n;
        }
      }
    }
  }

  /**
   * `mergeDirs({ dest, paths: [dir] })` with a folder whose entries are
   * files: with the overwrite resolver and `dest` an existing directory,
   * each entry's content ends up at `dest/<name>`, and nothing throws.
   */
  lemma PlainDirectoryFilesLand(c: Config, tree: Tree, path: string, bound: nat)
    requires Ready(c, tree, bound) && Apart(path, c.dest)
    requires c.resolver == OverwriteResolver
    requires path in tree && tree[path].Dir?
    requires IsDir(tree, c.dest) && FileEntries(c, tree, path, c.dest, tree[path].children)
    ensures var o := Walk(c, tree, path, "", bound);
            !o.thrown && Landed(tree, o.tree, path, c.dest, tree[path].children)
  {
    var files := tree[path].children;
    if !(|files| == 0 && c.ignoreEmptyFolders) {
      WalkChildrenFilesLand(c, tree, path, "", c.dest, files, bound);
    }
  }

  /** Creating the directory `dest/name` keeps the entries of a source directory apart from `dest`. */
  lemma MadeKeepsEntries(c: Config, tree: Tree, path: string, name: string, files: seq<string>)
    requires c.dest != "" && name != "" && Apart(path, c.dest) && path != ""
    requires PathJoin(c.dest, name) !in tree
    requires FileEntries(c, tree, path, PathJoin(c.dest, name), files)
    ensures var d := PathJoin(c.dest, name);
            FileEntries(c, AddEntry(tree, d, Dir([])), path, d, files)
    ensures var d := PathJoin(c.dest, name);
            forall n :: n in files ==> AddEntry(tree, d, Dir([]))[PathJoin(path, n)] == tree[PathJoin(path, n)]
    ensures '/' !in name ==> (ParentIsDir(tree, PathJoin(c.dest, name)) <==> IsDir(tree, c.dest))
  {
    var d := PathJoin(c.dest, name);
    DirAndFileNameOfJoin(c.dest, name);
    forall n | n in files
      ensures PathJoin(path, n) in AddEntry(tree, d, Dir([]))
      ensures AddEntry(tree, d, Dir([]))[PathJoin(path, n)] == tree[PathJoin(path, n)]
      ensures !IsDir(AddEntry(tree, d, Dir([])), PathJoin(d, n))
    {
      MadeKeepsEntry(c, tree, path, name, n);
    }
  }

  /** Creating `dest/name` keeps one entry of a source directory, and puts no directory below it. */
  lemma MadeKeepsEntry(c: Config, tree: Tree, path: string, name: string, n: string)
    requires c.dest != "" && name != "" && n != "" && Apart(path, c.dest) && path != ""
    requires PathJoin(path, n) in tree && !IsDir(tree, PathJoin(PathJoin(c.dest, name), n))
    ensures var d := PathJoin(c.dest, name);
            var made := AddEntry(tree, d, Dir([]));
            PathJoin(path, n) in made && made[PathJoin(path, n)] == tree[PathJoin(path, n)] && !IsDir(made, PathJoin(d, n))
  {
    var d := PathJoin(c.dest, name);
    InsideDest(c.dest, name);
    ChildApart(path, n, c.dest);
    assert PathJoin(path, n) != d && PathJoin(path, n) != GetCurrentDir(d);
    assert |PathJoin(d, n)| > |d|;
  }

  /** The case of NamedDirectoryFilesLand where `dest/name` is absent and `mkdirSync` creates it. */
  lemma CreatedDirectoryFilesLand(c: Config, tree: Tree, path: string, name: string, bound: nat)
    requires Ready(c, tree, bound) && Apart(path, c.dest) && c.resolver == OverwriteResolver
    requires name != "" && '/' !in name && IsDir(tree, c.dest)
    requires path in tree && tree[path].Dir? && tree[path].children != []
    requires PathJoin(c.dest, name) !in tree
    requires FileEntries(c, tree, path, PathJoin(c.dest, name), tree[path].children)
    ensures var d := PathJoin(c.dest, name);
            var o := Walk(c, tree, path, name, bound);
            !o.thrown && IsDir(o.tree, d) && Landed(tree, o.tree, path, d, tree[path].children)
  {
    var d := PathJoin(c.dest, name);
    var files := tree[path].children;
    assert path != "";
    MadeKeepsEntries(c, tree, path, name, files);
    DirectoryCreated(c, tree, path, name, bound);
    var made := AddEntry(tree, d, Dir([]));
    WalkChildrenFilesLand(c, made, path, name, d, files, bound);
  }

  /**
   * A directory walked with a one-segment relative path `name` whose entries
   * are files: with the overwrite resolver and `dest` an existing directory,
   * `dest/name` is a directory afterwards (created if absent) and each
   * entry's content ends up at `dest/name/<entry>`, and nothing throws.
   */
  lemma NamedDirectoryFilesLand(c: Config, tree: Tree, path: string, name: string, bound: nat)
    requires Ready(c, tree, bound) && Apart(path, c.dest) && c.resolver == OverwriteResolver
    requires name != "" && '/' !in name && IsDir(tree, c.dest)
    requires path in tree && tree[path].Dir? && tree[path].children != []
    requires var d := PathJoin(c.dest, name);
             (d !in tree || IsDir(tree, d)) && FileEntries(c, tree, path, d, tree[path].children)
    ensures var d := PathJoin(c.dest, name);
            var o := Walk(c, tree, path, name, bound);
            !o.thrown && IsDir(o.tree, d) && Landed(tree, o.tree, path, d, tree[path].children)
  {
    if PathJoin(c.dest, name) !in tree {
      CreatedDirectoryFilesLand(c, tree, path, name, bound);
    } else {
      assert path != "";
      DirectoryExisting(c, tree, path, name, bound);
      WalkChildrenFilesLand(c, tree, path, name, PathJoin(c.dest, name), tree[path].children, bound);
    }
  }

  /**
   * `mergeDirs({ dest, paths: [{ rootDir, path }] })` with a folder whose
   * entries are files: the folder is walked from `join(rootDir, path)` with
   * its last segment as relative path, so each entry's content ends up at
   * `dest/<last segment>/<name>`.
   */
  lemma ObjectDirectoryFilesLand(c: Config, tree: Tree, entry: PathEntry, bound: nat)
    requires entry.PathObject? && GetFileName(entry.path) != ""
    requires Ready(c, tree, bound) && c.resolver == OverwriteResolver && IsDir(tree, c.dest)
    requires var r := ResolvePath(entry);
             Apart(r.path, c.dest) && r.path in tree && tree[r.path].Dir? && tree[r.path].children != []
    requires var r := ResolvePath(entry);
             var d := PathJoin(c.dest, GetFileName(entry.path));
             (d !in tree || IsDir(tree, d)) && FileEntries(c, tree, r.path, d, tree[r.path].children)
    ensures var r := ResolvePath(entry);
            var d := PathJoin(c.dest, GetFileName(entry.path));
            var o := Walk(c, tree, r.path, r.relativePath, bound);
            !o.thrown && IsDir(o.tree, d) && Landed(tree, o.tree, r.path, d, tree[r.path].children)
  {
    var r := ResolvePath(entry);
    NamedDirectoryFilesLand(c, tree, r.path, r.relativePath, bound);
  }

  /** Files that existed before a merge keep their content. */
  ghost predicate FilesKept(before: Tree, after: Tree)
  {
    forall k :: k in before && before[k].File? ==> k in after && after[k] == before[k]
  }

  /** Adding an entry at a path that is not there yet keeps every file. */
  lemma AddNewKeepsFiles(tree: Tree, path: string, entry: Entry)
    requires path !in tree
    ensures FilesKept(tree, AddEntry(tree, path, entry))
  {
  }

  /** With the skip resolver, the file branch copies only onto a missing target. */
  lemma CopyStepSkipKeepsFiles(c: Config, tree: Tree, path: string, relativePath: string)
    requires path in tree && tree[path].File? && c.resolver == SkipResolver
    ensures FilesKept(tree, CopyStep(c, tree, path, relativePath))
  {
    var destPath := FinalDest(c, tree, path, relativePath);
    if destPath != path && !CopyFails(tree, c.failing, path, destPath) {
      assert destPath !in tree;
      AddNewKeepsFiles(tree, destPath, File(tree[path].content));
    }
  }

  /** With the skip resolver, a walk leaves every existing file as it was. */
  lemma {:induction false} WalkSkipKeepsFiles(c: Config, tree: Tree, path: string, relativePath: string, bound: nat)
    requires Ready(c, tree, bound) && Apart(path, c.dest) && c.resolver == SkipResolver
    ensures FilesKept(tree, Walk(c, tree, path, relativePath, bound).tree)
    decreases Measure(path, bound), 1
  {
    if path in tree {
      match tree[path]
      case Dir(files) =>
        if |files| == 0 && c.ignoreEmptyFolders {
        } else if relativePath != "" && PathJoin(c.dest, relativePath) !in tree {
          var destPath := PathJoin(c.dest, relativePath);
          if ParentIsDir(tree, destPath) {
            var made := AddEntry(tree, destPath, Dir([]));
            InsideDest(c.dest, relativePath);
            AddInsideKept(tree, destPath, Dir([]), c.dest);
            ReadyKept(c, tree, made, bound);
            AddNewKeepsFiles(tree, destPath, Dir([]));
            WalkChildrenSkipKeepsFiles(c, made, path, relativePath, files, bound);
            FilesKeptTrans(tree, made, WalkChildren(c, made, path, relativePath, files, bound).tree);
          }
        } else {
          WalkChildrenSkipKeepsFiles(c, tree, path, relativePath, files, bound);
        }
      case File(_) =>
        CopyStepSkipKeepsFiles(c, tree, path, relativePath);
    }
  }

  lemma FilesKeptTrans(a: Tree, b: Tree, c: Tree)
    requires FilesKept(a, b) && FilesKept(b, c)
    ensures FilesKept(a, c)
  {
  }

  lemma {:induction false} WalkChildrenSkipKeepsFiles(c: Config, tree: Tree, path: string, relativePath: string,
                                                     files: seq<string>, bound: nat)
    requires Ready(c, tree, bound) && Apart(path, c.dest) && path != "" && |path| <= bound
    requires forall n :: n in files ==> n != ""
    requires c.resolver == SkipResolver
    ensures FilesKept(tree, WalkChildren(c, tree, path, relativePath, files, bound).tree)
    decreases Measure(path, bound), 0, |files|
  {
    if |files| > 0 {
      assert files[0] in files;
      ChildApart(path, files[0], c.dest);
      var o := Walk(c, tree, PathJoin(path, files[0]), PathJoin(relativePath, files[0]), bound);
      WalkSkipKeepsFiles(c, tree, PathJoin(path, files[0]), PathJoin(relativePath, files[0]), bound);
      if !o.thrown {
        ReadyKept(c, tree, o.tree, bound);
        assert forall n :: n in files[1..] ==> n in files;
        WalkChildrenSkipKeepsFiles(c, o.tree, path, relativePath, files[1..], bound);
      }
    }
  }

  lemma {:induction false} MergePathsSkipKeepsFiles(c: Config, tree: Tree, paths: seq<ResolvedPath>, bound: nat)
    requires Ready(c, tree, bound) && c.resolver == SkipResolver
    requires forall i :: 0 <= i < |paths| ==> Apart(paths[i].path, c.dest)
    ensures FilesKept(tree, MergePaths(c, tree, paths, bound).tree)
    decreases |paths|
  {
    if |paths| > 0 {
      var o := Walk(c, tree, paths[0].path, paths[0].relativePath, bound);
      WalkSkipKeepsFiles(c, tree, paths[0].path, paths[0].relativePath, bound);
      if !o.thrown {
        ReadyKept(c, tree, o.tree, bound);
        MergePathsSkipKeepsFiles(c, o.tree, paths[1..], bound);
      }
    }
  }

  /** `conflictResolution: 'skip'` never changes a file that was already there. */
  lemma SkipKeepsExistingFiles(options: MergeDirsOptions, tree: Tree, failing: set<string>)
    requires MergeReady(options, tree) && options.conflictResolution == Some(SkipPolicy)
    ensures FilesKept(tree, MergeDirsResult(options, tree, failing).tree)
  {
    var c := ConfigOf(options, failing);
    MergeReadyStart(options, tree, failing);
    MergePathsSkipKeepsFiles(c, tree, ResolveOptions(options).paths, LenBound(tree.Keys));
  }

  /** Names as a file system lists them: no entry of a source directory holds '/'. */
  ghost predicate PlainNames(tree: Tree, dest: string)
  {
    forall k :: k in tree && !UnderEq(k, dest) && tree[k].Dir? ==> forall n :: n in tree[k].children ==> '/' !in n
  }

  /**
   * `g` lies ahead of `a` as a walk leaves it: every key of `a` with the same
   * kind, the same entries outside `dest`, and no `dest` unless `a` has one.
   */
  ghost predicate Ahead(dest: string, a: Tree, g: Tree)
  {
    && a.Keys <= g.Keys
    && (forall k :: k in a ==> (a[k].Dir? <==> g[k].Dir?))
    && (forall k :: k in a && !UnderEq(k, dest) ==> g[k] == a[k])
    && (forall k :: k in g && !UnderEq(k, dest) ==> k in a)
    && (dest in g ==> dest in a)
  }

  lemma AheadKept(dest: string, a: Tree, b: Tree, g: Tree)
    requires Kept(a, b, dest) && Ahead(dest, b, g)
    ensures Ahead(dest, a, g)
  {
  }

  /**
   * A second merge at tree `r` keeps pace with a first one at tree `s` that
   * ends at `g`: `r` has exactly `g`'s keys, and each entry of `r` is the one
   * `g` has or a file still as `s` holds it.
   */
  ghost predicate Shadow(s: Tree, r: Tree, g: Tree)
  {
    && r.Keys == g.Keys
    && forall k :: k in r ==> r[k] == g[k] || (k in s && s[k].File? && r[k] == s[k])
  }

  /** A copy fails in the second merge exactly when it fails in the first, and both keep pace. */
  lemma CopyShadow(c: Config, s: Tree, r: Tree, g: Tree, src: string, dst: string)
    requires src in s && s[src].File? && src in r && r[src] == s[src]
    requires GetCurrentDir(dst) == c.dest || GetCurrentDir(dst) in s
    requires Shadow(s, r, g) && Ahead(c.dest, s, g) && Ahead(c.dest, CopyFile(s, c.failing, src, dst), g)
    ensures CopyFails(s, c.failing, src, dst) == CopyFails(r, c.failing, src, dst)
    ensures Shadow(CopyFile(s, c.failing, src, dst), CopyFile(r, c.failing, src, dst), g)
  {
    var parent := GetCurrentDir(dst);
    if !CopyFails(s, c.failing, src, dst) {
      var f := AddEntry(s, dst, File(s[src].content));
      assert f[dst].File? && dst in g;
      assert parent != "" ==> g[parent].Dir? && r[parent] == g[parent];
      assert !IsDir(r, dst);
      var r' := AddEntry(r, dst, File(s[src].content));
      forall k | k in r'
        ensures r'[k] == g[k] || (k in f && f[k].File? && r'[k] == f[k])
      {
        if k != dst && r[k] != g[k] {
          assert k in s && s[k].File?;
          assert f[k] == s[k];
        }
      }
    } else if parent != "" && !IsDir(s, parent) {
      if parent !in s {
        assert parent !in r;
      } else {
        assert !g[parent].Dir?;
      }
    } else if IsDir(s, dst) {
      assert r[dst] == g[dst];
    }
  }

  /** The file branch, run again from a tree that keeps pace: the same copy, or the same failure. */
  lemma FileShadow(c: Config, s: Tree, r: Tree, g: Tree, path: string, relativePath: string, b1: nat, b2: nat)
    requires Ready(c, s, b1) && Ready(c, r, b2) && Apart(path, c.dest) && c.resolver == OverwriteResolver
    requires path in s && s[path].File? && path in r && r[path] == s[path]
    requires '/' in relativePath ==> c.dest + "/" + GetCurrentDir(relativePath) in s
    requires Shadow(s, r, g) && Ahead(c.dest, s, g)
    requires Ahead(c.dest, Walk(c, s, path, relativePath, b1).tree, g)
    ensures var o, o' := Walk(c, s, path, relativePath, b1), Walk(c, r, path, relativePath, b2);
            o'.thrown == o.thrown && Shadow(o.tree, o'.tree, g)
  {
    var name := if relativePath != "" then relativePath else GetFileName(path);
    var dst := FileDest(c, path, relativePath);
    DirAndFileName(path);
    DirAndFileNameOfJoin(c.dest, name);
    assert dst != path;
    FileBranch(c, s, path, relativePath, b1);
    FileBranch(c, r, path, relativePath, b2);
    assert Walk(c, s, path, relativePath, b1).tree == CopyFile(s, c.failing, path, dst);
    CopyShadow(c, s, r, g, path, dst);
  }

  /** `mkdirSync` throwing, run again from a tree that keeps pace: it throws again. */
  lemma MkdirFailsShadow(c: Config, s: Tree, r: Tree, g: Tree, path: string, relativePath: string, b1: nat, b2: nat)
    requires Ready(c, s, b1) && Ready(c, r, b2) && Apart(path, c.dest)
    requires path in s && s[path].Dir? && path in r && r[path] == s[path] && relativePath != ""
    requires !(|s[path].children| == 0 && c.ignoreEmptyFolders)
    requires PathJoin(c.dest, relativePath) !in s && !ParentIsDir(s, PathJoin(c.dest, relativePath))
    requires Shadow(s, r, g) && Ahead(c.dest, s, g) && s.Keys == g.Keys
    ensures var o, o' := Walk(c, s, path, relativePath, b1), Walk(c, r, path, relativePath, b2);
            o'.thrown == o.thrown && Shadow(o.tree, o'.tree, g)
  {
    var d := PathJoin(c.dest, relativePath);
    var parent := GetCurrentDir(d);
    assert parent in s ==> !g[parent].Dir?;
    assert !ParentIsDir(r, d);
    DirectoryCreated(c, s, path, relativePath, b1);
    DirectoryCreated(c, r, path, relativePath, b2);
  }

  /** A new directory in the first merge's tree keeps the second merge in pace. */
  lemma AddDirShadow(s: Tree, r: Tree, g: Tree, d: string)
    requires d !in s && Shadow(s, r, g)
    ensures Shadow(AddEntry(s, d, Dir([])), r, g)
  {
    var made := AddEntry(s, d, Dir([]));
    forall k | k in r && r[k] != g[k]
      ensures k in made && made[k].File? && r[k] == made[k]
    {
      assert k in s && s[k].File? && k != d;
    }
  }

  /** `mkdirSync` creating `dest/relativePath`: the second merge finds it there and walks the same entries. */
  lemma CreatedShadow(c: Config, s: Tree, r: Tree, g: Tree, path: string, relativePath: string, b1: nat, b2: nat)
    requires Ready(c, s, b1) && Ready(c, r, b2) && Apart(path, c.dest) && c.resolver == OverwriteResolver
    requires PlainNames(s, c.dest)
    requires path in s && s[path].Dir? && path in r && r[path] == s[path] && relativePath != ""
    requires !(|s[path].children| == 0 && c.ignoreEmptyFolders)
    requires PathJoin(c.dest, relativePath) !in s && ParentIsDir(s, PathJoin(c.dest, relativePath))
    requires Shadow(s, r, g)
    requires var o := Walk(c, s, path, relativePath, b1);
             Ahead(c.dest, o.tree, g) && (o.thrown ==> o.tree.Keys == g.Keys)
    ensures var o, o' := Walk(c, s, path, relativePath, b1), Walk(c, r, path, relativePath, b2);
            o'.thrown == o.thrown && Shadow(o.tree, o'.tree, g)
    decreases Measure(path, b1), 1
  {
    var d := PathJoin(c.dest, relativePath);
    var files := s[path].children;
    var made := AddEntry(s, d, Dir([]));
    DirectoryCreated(c, s, path, relativePath, b1);
    var o := Walk(c, s, path, relativePath, b1);
    assert d in g;
    DirectoryExisting(c, r, path, relativePath, b2);
    AddDirShadow(s, r, g, d);
    WalkChildrenShadow(c, made, r, g, path, relativePath, files, b1, b2);
  }

  /**
   * One `recursiveMerge` with the overwrite resolver, run again from a tree
   * that keeps pace, makes the same decisions and keeps pace.
   */
  lemma {:induction false} WalkShadow(c: Config, s: Tree, r: Tree, g: Tree, path: string, relativePath: string,
                                      b1: nat, b2: nat)
    requires Ready(c, s, b1) && Ready(c, r, b2) && Apart(path, c.dest) && c.resolver == OverwriteResolver
    requires PlainNames(s, c.dest)
    requires '/' in relativePath ==> c.dest + "/" + GetCurrentDir(relativePath) in s
    requires Shadow(s, r, g)
    requires var o := Walk(c, s, path, relativePath, b1);
             Ahead(c.dest, o.tree, g) && (o.thrown ==> o.tree.Keys == g.Keys)
    ensures var o, o' := Walk(c, s, path, relativePath, b1), Walk(c, r, path, relativePath, b2);
            o'.thrown == o.thrown && Shadow(o.tree, o'.tree, g)
    decreases Measure(path, b1), 2
  {
    var o := Walk(c, s, path, relativePath, b1);
    AheadKept(c.dest, s, o.tree, g);
    if path !in s {
      NoOpCases(c, s, path, relativePath, b1);
      NoOpCases(c, r, path, relativePath, b2);
    } else if s[path].File? {
      FileShadow(c, s, r, g, path, relativePath, b1, b2);
    } else {
      var files := s[path].children;
      var d := PathJoin(c.dest, relativePath);
      if |files| == 0 && c.ignoreEmptyFolders {
        NoOpCases(c, s, path, relativePath, b1);
        NoOpCases(c, r, path, relativePath, b2);
      } else if relativePath != "" && d !in s && !ParentIsDir(s, d) {
        DirectoryCreated(c, s, path, relativePath, b1);
        MkdirFailsShadow(c, s, r, g, path, relativePath, b1, b2);
      } else if relativePath != "" && d !in s {
        CreatedShadow(c, s, r, g, path, relativePath, b1, b2);
      } else {
        if relativePath != "" {
          DirectoryExisting(c, s, path, relativePath, b1);
          DirectoryExisting(c, r, path, relativePath, b2);
        } else {
          PlainDirectoryMergesIntoDest(c, s, path, b1);
          PlainDirectoryMergesIntoDest(c, r, path, b2);
        }
        WalkChildrenShadow(c, s, r, g, path, relativePath, files, b1, b2);
      }
    }
  }

  /** The `forEach` over a directory's entries, run again from a tree that keeps pace. */
  lemma {:induction false} WalkChildrenShadow(c: Config, s: Tree, r: Tree, g: Tree, path: string, relativePath: string,
                                              files: seq<string>, b1: nat, b2: nat)
    requires Ready(c, s, b1) && Ready(c, r, b2) && Apart(path, c.dest) && c.resolver == OverwriteResolver
    requires path != "" && |path| <= b1 && |path| <= b2
    requires forall n :: n in files ==> n != "" && '/' !in n
    requires PlainNames(s, c.dest)
    requires relativePath != "" ==> PathJoin(c.dest, relativePath) in s
    requires Shadow(s, r, g)
    requires var o := WalkChildren(c, s, path, relativePath, files, b1);
             Ahead(c.dest, o.tree, g) && (o.thrown ==> o.tree.Keys == g.Keys)
    ensures var o, o' := WalkChildren(c, s, path, relativePath, files, b1), WalkChildren(c, r, path, relativePath, files, b2);
            o'.thrown == o.thrown && Shadow(o.tree, o'.tree, g)
    decreases Measure(path, b1), 0, |files|
  {
    if |files| > 0 {
      var n := files[0];
      assert n in files;
      ChildApart(path, n, c.dest);
      WalkChildrenStep(c, s, path, relativePath, files, b1);
      WalkChildrenStep(c, r, path, relativePath, files, b2);
      var child, rel := PathJoin(path, n), PathJoin(relativePath, n);
      var o1 := Walk(c, s, child, rel, b1);
      var o := WalkChildren(c, s, path, relativePath, files, b1);
      if !o1.thrown {
        AheadKept(c.dest, o1.tree, o.tree, g);
      }
      if relativePath != "" {
        DirAndFileNameOfJoin(relativePath, n);
      }
      WalkShadow(c, s, r, g, child, rel, b1, b2);
      if !o1.thrown {
        var o2 := Walk(c, r, child, rel, b2);
        assert forall m :: m in files[1..] ==> m in files;
        WalkChildrenShadow(c, o1.tree, o2.tree, g, path, relativePath, files[1..], b1, b2);
      }
    }
  }

  /** The top-level `paths.forEach`, run again from a tree that keeps pace. */
  lemma {:induction false} MergePathsShadow(c: Config, s: Tree, r: Tree, g: Tree, paths: seq<ResolvedPath>,
                                            b1: nat, b2: nat)
    requires Ready(c, s, b1) && Ready(c, r, b2) && c.resolver == OverwriteResolver
    requires forall i :: 0 <= i < |paths| ==> Apart(paths[i].path, c.dest) && '/' !in paths[i].relativePath
    requires PlainNames(s, c.dest)
    requires Shadow(s, r, g)
    requires var o := MergePaths(c, s, paths, b1);
             Ahead(c.dest, o.tree, g) && (o.thrown ==> o.tree.Keys == g.Keys)
    ensures var o, o' := MergePaths(c, s, paths, b1), MergePaths(c, r, paths, b2);
            o'.thrown == o.thrown && Shadow(o.tree, o'.tree, g)
    decreases |paths|
  {
    if |paths| > 0 {
      MergePathsStep(c, s, paths, b1);
      MergePathsStep(c, r, paths, b2);
      var o1 := Walk(c, s, paths[0].path, paths[0].relativePath, b1);
      var o := MergePaths(c, s, paths, b1);
      if !o1.thrown {
        AheadKept(c.dest, o1.tree, o.tree, g);
      }
      WalkShadow(c, s, r, g, paths[0].path, paths[0].relativePath, b1, b2);
      if !o1.thrown {
        var o2 := Walk(c, r, paths[0].path, paths[0].relativePath, b2);
        MergePathsShadow(c, o1.tree, o2.tree, g, paths[1..], b1, b2);
      }
    }
  }

  /** The relative paths `resolveOptions` gives hold no '/'. */
  lemma PlainRelativePaths(options: MergeDirsOptions)
    ensures var paths := ResolveOptions(options).paths;
            forall i :: 0 <= i < |paths| ==> '/' !in paths[i].relativePath
  {
    var paths := ResolveOptions(options).paths;
    forall i | 0 <= i < |paths|
      ensures '/' !in paths[i].relativePath
    {
      assert paths[i] == ResolvePath(options.paths[i]);
    }
  }

  /** A merge keeps what a merge needs. */
  lemma MergeReadyKept(options: MergeDirsOptions, before: Tree, after: Tree)
    requires MergeReady(options, before) && SameOutside(before, after, options.dest)
    ensures MergeReady(options, after)
  {
    assert !UnderEq("", options.dest);
  }

  /** A second merge starting from where the first one ends keeps pace with it. */
  lemma ShadowStart(dest: string, s: Tree, g: Tree)
    ensures Shadow(s, g, g) && Ahead(dest, g, g)
  {
  }

  /** Keeping pace with a first merge that has ended means having its tree. */
  lemma ShadowEnd(g: Tree, r: Tree)
    requires Shadow(g, r, g)
    ensures r == g
  {
  }

  /** The top-level `paths.forEach` with the overwrite resolver, run a second time, gives the first outcome. */
  lemma MergePathsTwice(c: Config, tree: Tree, paths: seq<ResolvedPath>, b1: nat, b2: nat)
    requires Ready(c, tree, b1) && c.resolver == OverwriteResolver && PlainNames(tree, c.dest)
    requires forall i :: 0 <= i < |paths| ==> Apart(paths[i].path, c.dest) && '/' !in paths[i].relativePath
    requires Ready(c, MergePaths(c, tree, paths, b1).tree, b2)
    ensures var o := MergePaths(c, tree, paths, b1);
            MergePaths(c, o.tree, paths, b2) == o
  {
    var o := MergePaths(c, tree, paths, b1);
    ShadowStart(c.dest, tree, o.tree);
    MergePathsShadow(c, tree, o.tree, o.tree, paths, b1, b2);
    ShadowEnd(o.tree, MergePaths(c, o.tree, paths, b2).tree);
  }

  /**
   * With `conflictResolution` omitted or 'overwrite', merging a second time
   * changes nothing: the second `mergeDirs` gives the tree and throw flag of
   * the first. Source directories list names without '/', as a file system
   * does.
   */
  lemma OverwriteIdempotent(options: MergeDirsOptions, tree: Tree, failing: set<string>)
    requires MergeReady(options, tree) && PlainNames(tree, options.dest)
    requires options.conflictResolution in {None, Some(OverwritePolicy)}
    ensures var o := MergeDirsResult(options, tree, failing);
            MergeReady(options, o.tree) && MergeDirsResult(options, o.tree, failing) == o
  {
    var c := ConfigOf(options, failing);
    var paths := ResolveOptions(options).paths;
    var o := MergeDirsResult(options, tree, failing);
    MergeReadyStart(options, tree, failing);
    MergeReadyKept(options, tree, o.tree);
    MergeReadyStart(options, o.tree, failing);
    PlainRelativePaths(options);
    MergePathsTwice(c, tree, paths, LenBound(tree.Keys), LenBound(o.tree.Keys));
  }

  /** An in-memory file system that `mergeDirs` updates in place. */
  class FileSystem {
    var tree: Tree
    /** The sources whose copy fails (unreadable files). */
    const failing: set<string>

    constructor (tree: Tree, failing: set<string>)
      ensures this.tree == tree && this.failing == failing
    {
      this.tree := tree;
      this.failing := failing;
    }

    /** `fs.mkdirSync(path)`: reports whether it threw. */
    method MakeDirectory(path: string) returns (thrown: bool)
      modifies this
      ensures thrown == Mkdir(old(tree), path).None?
      ensures tree == if thrown then old(tree) else Mkdir(old(tree), path).value
    {
      thrown := path in tree || !ParentIsDir(tree, path);
      if !thrown {
        tree := AddEntry(tree, path, Dir([]));
      }
    }

    /** `fs.copyFileSync(src, dst)`; a failure leaves the tree as it was. */
    method CopyFileSync(src: string, dst: string) returns (ok: bool)
      requires src in tree && tree[src].File?
      modifies this
      ensures ok == !CopyFails(old(tree), failing, src, dst)
      ensures tree == CopyFile(old(tree), failing, src, dst)
    {
      ok := !CopyFails(tree, failing, src, dst);
      if ok {
        tree := AddEntry(tree, dst, File(tree[src].content));
      }
    }

    /** `recursiveMerge(path, rootDir, relativePath)`. */
    method RecursiveMerge(c: Config, path: string, relativePath: string, ghost bound: nat) returns (thrown: bool)
      requires c.failing == failing
      requires Ready(c, tree, bound) && Apart(path, c.dest)
      modifies this
      ensures Outcome(tree, thrown) == Walk(c, old(tree), path, relativePath, bound)
      decreases Measure(path, bound), 1
    {
      if path !in tree {
        return false;
      }
      assert |path| <= bound && path != "";
      var entry := tree[path];
      if entry.Dir? {
        var files := entry.children;
        if |files| == 0 && c.ignoreEmptyFolders {
          return false;
        }
        if relativePath != "" {
          var destPath := PathJoin(c.dest, relativePath);
          if destPath !in tree {
            ghost var before := tree;
            thrown := MakeDirectory(destPath);
            if thrown {
              return;
            }
            InsideDest(c.dest, relativePath);
            AddInsideKept(before, destPath, Dir([]), c.dest);
            ReadyKept(c, before, tree, bound);
          }
        }
        assert forall n :: n in files ==> n != "";
        thrown := MergeChildren(c, path, relativePath, files, bound);
      } else {
        MergeFile(c, path, relativePath);
        thrown := false;
      }
    }

    /** The file branch of `recursiveMerge`: ask the resolver, then copy unless it answered the source. */
    method MergeFile(c: Config, path: string, relativePath: string)
      requires c.failing == failing
      requires path in tree && tree[path].File?
      modifies this
      ensures tree == CopyStep(c, old(tree), path, relativePath)
    {
      var destPath := PathJoin(c.dest, if relativePath != "" then relativePath else GetFileName(path));
      if !c.resolver.OverwriteResolver? && destPath in tree {
        destPath := Apply(c.resolver, path, destPath);
      }
      if destPath != path {
        var _ := CopyFileSync(path, destPath);
      }
    }

    /** `files.forEach(...)` inside `recursiveMerge`: reports whether an entry threw. */
    method MergeChildren(c: Config, path: string, relativePath: string, files: seq<string>, ghost bound: nat)
      returns (thrown: bool)
      requires c.failing == failing
      requires Ready(c, tree, bound) && Apart(path, c.dest) && path != "" && |path| <= bound
      requires forall n :: n in files ==> n != ""
      modifies this
      ensures Outcome(tree, thrown) == WalkChildren(c, old(tree), path, relativePath, files, bound)
      decreases Measure(path, bound), 0
    {
      ghost var start := tree;
      ChildrenPendingStart(c, tree, path, relativePath, files, bound);
      var i := 0;
      while i < |files|
        invariant 0 <= i <= |files|
        invariant ChildrenPending(c, start, tree, path, relativePath, files, i, bound)
      {
        ChildrenPendingCall(c, start, tree, path, relativePath, files, i, bound);
        ghost var before := tree;
        thrown := RecursiveMerge(c, PathJoin(path, files[i]), PathJoin(relativePath, files[i]), bound);
        ChildrenPendingNext(c, start, before, tree, thrown, path, relativePath, files, i, bound);
        if thrown {
          return;
        }
        i := i + 1;
      }
      ChildrenPendingEnd(c, start, tree, path, relativePath, files, bound);
      thrown := false;
    }

    /** `mergeDirs(options)`: reports whether it threw. */
    method MergeDirs(options: MergeDirsOptions) returns (thrown: bool)
      requires MergeReady(options, tree)
      modifies this
      ensures Outcome(tree, thrown) == MergeDirsResult(options, old(tree), failing)
    {
      var resolved := ResolveOptions(options);
      var c := Config(resolved.dest, resolved.conflictResolver, resolved.ignoreEmptyFolders.GetOr(false), failing);
      ghost var bound := LenBound(tree.Keys);
      ghost var start := tree;
      assert c == ConfigOf(options, failing);
      MergeReadyStart(options, tree, failing);
      var paths := resolved.paths;
      PathsPendingStart(c, tree, paths, bound);
      var i := 0;
      while i < |paths|
        invariant 0 <= i <= |paths|
        invariant PathsPending(c, start, tree, paths, i, bound)
      {
        PathsPendingStep(c, start, tree, paths, i, bound);
        thrown := RecursiveMerge(c, paths[i].path, paths[i].relativePath, bound);
        if thrown {
          return;
        }
        i := i + 1;
      }
      PathsPendingEnd(c, start, tree, paths, bound);
      thrown := false;
    }
  }
}
