/**
 * Target expansion of the `targets` API (src/utils.ts): every resolved
 * target becomes one merge job per path its glob matches, with the job's
 * destination computed from `flatten` and the matched path.
 */
module MergeTargets {
  import opened Wrappers
  import opened Paths
  import opened TargetOptions

  /**
   * The glob matcher, called as fast-glob is: with the target's patterns, its
   * ignore list and the root as working directory (files and directories,
   * dotfiles included). It answers the matched relative paths in order.
   */
  type Matcher = (Sources, Option<seq<string>>, string) -> seq<string>

  /** One concrete job: a matched source path under `root` and where it goes. */
  datatype MergeJob = MergeJob(
    root: string,
    src: string,
    dest: string,
    overwriteDirectory: Option<OverwriteDirectory>,
    conflictResolver: ConflictResolver)

  /*
   * `path.parse(p)` gives `dir` and `base`; on a normalised relative path they
   * are the path's directory part and last segment, GetCurrentDir and
   * GetFileName.
   */

  /** The directory a matched path is merged into. */
  function DestDir(target: ResolvedTarget, matched: string): (dir: string)
    ensures target.flatten || '/' !in matched ==> dir == target.dest
  {
    var dir := GetCurrentDir(matched);
    if target.flatten || dir == "" then target.dest
    else ReplaceFirst(dir, Split(dir)[0], target.dest)
  }

  /**
   * The destination of a matched path: its base name under DestDir. It is
   * never empty, and with `flatten`, or for a path without a directory, it
   * is the base name directly under `dest`.
   */
  function JobDest(target: ResolvedTarget, matched: string): (dest: string)
    ensures dest != ""
    ensures target.flatten || '/' !in matched ==> dest == PathJoin(target.dest, GetFileName(matched))
  {
    PathJoin(DestDir(target, matched), GetFileName(matched))
  }

  function MakeJob(target: ResolvedTarget, root: string, matched: string): MergeJob
  {
    MergeJob(root, matched, JobDest(target, matched), target.overwriteDirectory, target.conflictResolver)
  }

  function Matches(target: ResolvedTarget, root: string, matcher: Matcher): seq<string>
  {
    matcher(target.src, target.ignore, root)
  }

  /*
   * The shape of the expansion does not depend on how a job is made, so it is
   * stated once for any `matches` and `make`, and instantiated below.
   */

  /** One target's matched paths made into jobs, in order. */
  function Each<J>(target: ResolvedTarget, matched: seq<string>, make: (ResolvedTarget, string) -> J): seq<J>
    decreases |matched|
  {
    if |matched| == 0 then []
    else [make(target, matched[0])] + Each(target, matched[1..], make)
  }

  /** Every target's jobs, target by target in input order. */
  function Expand<J>(targets: seq<ResolvedTarget>, matches: ResolvedTarget -> seq<string>,
                     make: (ResolvedTarget, string) -> J): seq<J>
    decreases |targets|
  {
    if |targets| == 0 then []
    else Each(targets[0], matches(targets[0]), make) + Expand(targets[1..], matches, make)
  }

  /** How many paths the targets match, all together. */
  function Count(targets: seq<ResolvedTarget>, matches: ResolvedTarget -> seq<string>): nat
    decreases |targets|
  {
    if |targets| == 0 then 0
    else |matches(targets[0])| + Count(targets[1..], matches)
  }

  lemma {:induction false} EachAppend<J>(target: ResolvedTarget, xs: seq<string>, ys: seq<string>,
                                         make: (ResolvedTarget, string) -> J)
    ensures Each(target, xs + ys, make) == Each(target, xs, make) + Each(target, ys, make)
    decreases |xs|
  {
    if |xs| > 0 {
      assert (xs + ys)[0] == xs[0];
      assert (xs + ys)[1..] == xs[1..] + ys;
      EachAppend(target, xs[1..], ys, make);
    } else {
      assert xs + ys == ys;
    }
  }

  lemma {:induction false} EachLength<J>(target: ResolvedTarget, matched: seq<string>,
                                         make: (ResolvedTarget, string) -> J)
    ensures |Each(target, matched, make)| == |matched|
    decreases |matched|
  {
    if |matched| > 0 {
      EachLength(target, matched[1..], make);
    }
  }

  lemma {:induction false} EachAt<J>(target: ResolvedTarget, matched: seq<string>,
                                     make: (ResolvedTarget, string) -> J, j: nat)
    requires j < |matched|
    ensures j < |Each(target, matched, make)|
    ensures Each(target, matched, make)[j] == make(target, matched[j])
    decreases |matched|
  {
    EachLength(target, matched, make);
    if j > 0 {
      EachAt(target, matched[1..], make, j - 1);
    }
  }

  lemma {:induction false} ExpandAppend<J>(xs: seq<ResolvedTarget>, ys: seq<ResolvedTarget>,
                                           matches: ResolvedTarget -> seq<string>,
                                           make: (ResolvedTarget, string) -> J)
    ensures Expand(xs + ys, matches, make) == Expand(xs, matches, make) + Expand(ys, matches, make)
    decreases |xs|
  {
    if |xs| == 0 {
      assert xs + ys == ys;
    } else {
      assert (xs + ys)[0] == xs[0];
      assert (xs + ys)[1..] == xs[1..] + ys;
      ExpandAppend(xs[1..], ys, matches, make);
    }
  }

  lemma {:induction false} ExpandLength<J>(targets: seq<ResolvedTarget>, matches: ResolvedTarget -> seq<string>,
                                           make: (ResolvedTarget, string) -> J)
    ensures |Expand(targets, matches, make)| == Count(targets, matches)
    decreases |targets|
  {
    if |targets| > 0 {
      EachLength(targets[0], matches(targets[0]), make);
      ExpandLength(targets[1..], matches, make);
    }
  }

  lemma {:induction false} ExpandAt<J>(targets: seq<ResolvedTarget>, matches: ResolvedTarget -> seq<string>,
                                       make: (ResolvedTarget, string) -> J, i: nat, j: nat)
    requires i < |targets| && j < |matches(targets[i])|
    ensures var k := Count(targets[..i], matches) + j;
            k < |Expand(targets, matches, make)|
            && Expand(targets, matches, make)[k] == make(targets[i], matches(targets[i])[j])
    decreases i
  {
    EachLength(targets[0], matches(targets[0]), make);
    ExpandLength(targets[1..], matches, make);
    if i == 0 {
      EachAt(targets[0], matches(targets[0]), make, j);
    } else {
      ExpandAt(targets[1..], matches, make, i - 1, j);
      assert targets[..i][1..] == targets[1..][..i - 1];
    }
  }

  /** The matcher's answer for each target. */
  function Finder(root: string, matcher: Matcher): ResolvedTarget -> seq<string>
  {
    target => Matches(target, root, matcher)
  }

  function Maker(root: string): (ResolvedTarget, string) -> MergeJob
  {
    (target, matched) => MakeJob(target, root, matched)
  }

  lemma FinderApplies(root: string, matcher: Matcher, target: ResolvedTarget)
    ensures Finder(root, matcher)(target) == Matches(target, root, matcher)
  {
  }

  lemma MakerApplies(root: string, target: ResolvedTarget, matched: string)
    ensures Maker(root)(target, matched) == MakeJob(target, root, matched)
  {
  }

  /** The jobs of all targets, target by target in input order, one per matched path. */
  function AllJobs(targets: seq<ResolvedTarget>, root: string, matcher: Matcher): seq<MergeJob>
  {
    Expand(targets, Finder(root, matcher), Maker(root))
  }

  /** `collectMergeTargets`: pushes one job per matched path, target by target. */
  method CollectMergeTargets(targets: seq<ResolvedTarget>, root: string, matcher: Matcher)
    returns (mergeTargets: seq<MergeJob>)
    ensures mergeTargets == AllJobs(targets, root, matcher)
  {
    ghost var finder, maker := Finder(root, matcher), Maker(root);
    mergeTargets := [];
    for i := 0 to |targets|
      invariant mergeTargets == Expand(targets[..i], finder, maker)
    {
      var target := targets[i];
      var matchedPaths := matcher(target.src, target.ignore, root);
      for j := 0 to |matchedPaths|
        invariant mergeTargets == Expand(targets[..i], finder, maker) + Each(target, matchedPaths[..j], maker)
      {
        var matchedPath := matchedPaths[j];
        var base, destDir := GetFileName(matchedPath), DestDir(target, matchedPath);
        var job := MergeJob(root, matchedPath, PathJoin(destDir, base),
                            target.overwriteDirectory, target.conflictResolver);
        MakerApplies(root, target, matchedPath);
        EachSnoc(target, matchedPaths, maker, j);
        mergeTargets := mergeTargets + [job];
      }
      assert matchedPaths[..|matchedPaths|] == matchedPaths;
      FinderApplies(root, matcher, target);
      ExpandSnoc(targets, finder, maker, i);
    }
    assert targets[..|targets|] == targets;
  }

  lemma EachSnoc<J>(target: ResolvedTarget, matched: seq<string>, make: (ResolvedTarget, string) -> J, j: nat)
    requires j < |matched|
    ensures Each(target, matched[..j + 1], make) == Each(target, matched[..j], make) + [make(target, matched[j])]
  {
    assert matched[..j + 1] == matched[..j] + [matched[j]];
    EachAppend(target, matched[..j], [matched[j]], make);
    assert [matched[j]][1..] == [];
  }

  lemma ExpandSnoc<J>(targets: seq<ResolvedTarget>, matches: ResolvedTarget -> seq<string>,
                      make: (ResolvedTarget, string) -> J, i: nat)
    requires i < |targets|
    ensures Expand(targets[..i + 1], matches, make)
         == Expand(targets[..i], matches, make) + Each(targets[i], matches(targets[i]), make)
  {
    assert targets[..i + 1] == targets[..i] + [targets[i]];
    ExpandAppend(targets[..i], [targets[i]], matches, make);
    assert [targets[i]][1..] == [];
  }

  /** Expanding a concatenation of target lists concatenates the job lists. */
  lemma AllJobsAppend(xs: seq<ResolvedTarget>, ys: seq<ResolvedTarget>, root: string, matcher: Matcher)
    ensures AllJobs(xs + ys, root, matcher) == AllJobs(xs, root, matcher) + AllJobs(ys, root, matcher)
  {
    ExpandAppend(xs, ys, Finder(root, matcher), Maker(root));
  }

  /** There is exactly one job per matched path: the length is the match count. */
  lemma AllJobsLength(targets: seq<ResolvedTarget>, root: string, matcher: Matcher)
    ensures |AllJobs(targets, root, matcher)| == Count(targets, Finder(root, matcher))
  {
    ExpandLength(targets, Finder(root, matcher), Maker(root));
  }

  /**
   * The job for the j-th path matched by the i-th target sits right after the
   * jobs of the targets before it: the root, the matched path verbatim,
   * JobDest, and the target's directory policy and resolver.
   */
  lemma AllJobsAt(targets: seq<ResolvedTarget>, root: string, matcher: Matcher, i: nat, j: nat)
    requires i < |targets| && j < |Matches(targets[i], root, matcher)|
    ensures var k := Count(targets[..i], Finder(root, matcher)) + j;
            var matched := Matches(targets[i], root, matcher)[j];
            var jobs := AllJobs(targets, root, matcher);
            k < |jobs| && jobs[k] == MakeJob(targets[i], root, matched)
  {
    AllJobsAtMaker(targets, root, matcher, i, j);
    MakerApplies(root, targets[i], Matches(targets[i], root, matcher)[j]);
  }

  lemma AllJobsAtMaker(targets: seq<ResolvedTarget>, root: string, matcher: Matcher, i: nat, j: nat)
    requires i < |targets| && j < |Matches(targets[i], root, matcher)|
    ensures var k := Count(targets[..i], Finder(root, matcher)) + j;
            var matched := Matches(targets[i], root, matcher)[j];
            var jobs := AllJobs(targets, root, matcher);
            k < |jobs| && jobs[k] == Maker(root)(targets[i], matched)
  {
    ExpandAt(targets, Finder(root, matcher), Maker(root), i, j);
    FinderApplies(root, matcher, targets[i]);
  }

  /**
   * Without `flatten`, the leading directory segment of the matched path is
   * replaced by `dest` and the deeper ones are kept: `a/b/c.ts` goes to
   * `join(dest + '/b', 'c.ts')`.
   */
  lemma PreserveDest(target: ResolvedTarget, matched: string)
    requires !target.flatten && ValidPath(matched) && '/' in matched
    ensures var segs := Split(matched);
            |segs| >= 2 && DestDir(target, matched) == Join([target.dest] + segs[1..|segs| - 1])
  {
    var segs := Split(matched);
    SplitSlash(matched);
    var dirSegs := segs[..|segs| - 1];
    var dir := GetCurrentDir(matched);
    assert dir == Join(dirSegs);
    SplitJoin(dirSegs);
    JoinReplaceHead(dirSegs, target.dest);
    assert segs[0] in segs;
    assert dirSegs[0] == segs[0] != "";
    assert OccursAt(dir, segs[0], 0);
    assert dirSegs[1..] == segs[1..|segs| - 1];
  }

  /** The last segment of every job's destination is the matched path's base name. */
  lemma BaseNameKept(target: ResolvedTarget, matched: string)
    requires ValidPath(matched)
    ensures GetFileName(JobDest(target, matched)) == GetFileName(matched)
  {
    var base := GetFileName(matched);
    DirAndFileName(matched);
    assert base in Split(matched);
    SplitNoSlash(base);
    var destDir := DestDir(target, matched);
    if destDir != "" {
      DirAndFileNameOfJoin(destDir, base);
    }
  }

  /** Flatten and preserve mode agree on a path with at most one directory segment. */
  lemma ShallowPathsAgree(target: ResolvedTarget, matched: string)
    requires ValidPath(matched) && |Split(matched)| <= 2
    ensures JobDest(target.(flatten := true), matched) == JobDest(target.(flatten := false), matched)
  {
    if '/' in matched {
      PreserveDest(target.(flatten := false), matched);
      var segs := Split(matched);
      assert [target.dest] + segs[1..|segs| - 1] == [target.dest];
    } else {
      DirAndFileName(matched);
    }
  }

  /**
   * A target written with `flatten: undefined` keeps it over the default, so
   * its matches keep their structure: the leading directory segment is
   * replaced by `dest` and the deeper ones stay.
   */
  lemma UndefinedFlattenPreserves(target: Target, matched: string)
    requires target.flatten == FlattenUndefined && ValidPath(matched) && '/' in matched
    ensures var segs := Split(matched);
            |segs| >= 2 && DestDir(ResolveTarget(target), matched) == Join([target.dest] + segs[1..|segs| - 1])
  {
    PreserveDest(ResolveTarget(target), matched);
  }
}
