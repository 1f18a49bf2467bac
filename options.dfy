/**
 * Option normalisation of the `targets` API (src/options.ts): every target
 * gets `flatten` defaulted to true and its `conflictResolution` policy
 * turned into a resolver function.
 */
module TargetOptions {
  import opened Wrappers

  /** A resolver answers, for a source and a destination, where the file goes. */
  type ConflictResolver = (string, string) -> string

  /** Decides, for a source and a destination, whether to replace a directory. */
  type OverwriteDirectoryFunc = (string, string) -> bool

  /** `src`: one path or glob, or a list of them. */
  datatype Sources = Pattern(pattern: string) | Patterns(patterns: seq<string>)

  /** `overwriteDirectory`: a flag or a decision function. */
  datatype OverwriteDirectory =
    | OverwriteFlag(flag: bool)
    | OverwriteWhen(decide: OverwriteDirectoryFunc)

  /** `conflictResolution`: a policy name or a function of the caller's. */
  datatype ConflictResolution =
    | OverwritePolicy
    | SkipPolicy
    | CustomPolicy(resolver: ConflictResolver)

  /**
   * `flatten` as the caller writes it. Leaving it out and writing
   * `flatten: undefined` differ: the spread `{ flatten: true, ...target }`
   * copies an explicit `undefined` over the default.
   */
  datatype FlattenField = FlattenOmitted | FlattenUndefined | Flatten(flag: bool)

  /**
   * A target as the caller writes it; `None` is an omitted (or `undefined`)
   * field, which every field but `flatten` treats alike.
   */
  datatype Target = Target(
    dest: string,
    src: Sources,
    ignore: Option<seq<string>>,
    flatten: FlattenField,
    overwriteDirectory: Option<OverwriteDirectory>,
    conflictResolution: Option<ConflictResolution>)

  datatype MergeDirsOptions = MergeDirsOptions(
    root: Option<string>,
    targets: seq<Target>,
    ignoreErrors: Option<bool>,
    ignoreEmptyFolders: Option<bool>)

  /**
   * A target after normalisation: the policy is a function, and `flatten`
   * is the truth value the expansion reads (an `undefined` reads as false).
   */
  datatype ResolvedTarget = ResolvedTarget(
    dest: string,
    src: Sources,
    ignore: Option<seq<string>>,
    flatten: bool,
    overwriteDirectory: Option<OverwriteDirectory>,
    conflictResolver: ConflictResolver)

  datatype ResolvedMergeDirsOptions = ResolvedMergeDirsOptions(
    root: Option<string>,
    targets: seq<ResolvedTarget>,
    ignoreErrors: Option<bool>,
    ignoreEmptyFolders: Option<bool>)

  /** The built-in policies of the `conflictResolvers` record. */
  function BuiltinResolver(name: ConflictResolution): (r: ConflictResolver)
    requires !name.CustomPolicy?
    ensures name == OverwritePolicy ==> forall src, dest :: r(src, dest) == dest
    ensures name == SkipPolicy ==> forall src, dest :: r(src, dest) == src
  {
    match name
    case OverwritePolicy => (src: string, dest: string) => dest
    case SkipPolicy => (src: string, dest: string) => src
  }

  /** Normalises one target: `{ flatten: true, ...target, conflictResolver }`. */
  function ResolveTarget(target: Target): (r: ResolvedTarget)
    ensures r.dest == target.dest && r.src == target.src && r.ignore == target.ignore
    ensures r.overwriteDirectory == target.overwriteDirectory
    ensures target.flatten == FlattenOmitted ==> r.flatten
    ensures target.flatten == FlattenUndefined ==> !r.flatten
    ensures target.flatten.Flatten? ==> r.flatten == target.flatten.flag
    ensures target.conflictResolution in {None, Some(OverwritePolicy)} ==>
              forall src, dest :: r.conflictResolver(src, dest) == dest
    ensures target.conflictResolution == Some(SkipPolicy) ==>
              forall src, dest :: r.conflictResolver(src, dest) == src
    ensures target.conflictResolution.Some? && target.conflictResolution.value.CustomPolicy? ==>
              r.conflictResolver == target.conflictResolution.value.resolver
  {
    var conflictResolution := target.conflictResolution.GetOr(OverwritePolicy);
    ResolvedTarget(
      target.dest,
      target.src,
      target.ignore,
      (match target.flatten
       case FlattenOmitted => true
       case FlattenUndefined => false
       case Flatten(flag) => flag),
      target.overwriteDirectory,
      match conflictResolution
      case CustomPolicy(f) => f
      case _ => BuiltinResolver(conflictResolution))
  }

  /** `resolveOptions`: the options with every target normalised, in order. */
  function ResolveOptions(options: MergeDirsOptions): (r: ResolvedMergeDirsOptions)
    ensures r.root == options.root
    ensures r.ignoreErrors == options.ignoreErrors
    ensures r.ignoreEmptyFolders == options.ignoreEmptyFolders
    ensures |r.targets| == |options.targets|
    ensures forall i :: 0 <= i < |r.targets| ==> r.targets[i] == ResolveTarget(options.targets[i])
  {
    ResolvedMergeDirsOptions(
      options.root,
      seq(|options.targets|, i requires 0 <= i < |options.targets| => ResolveTarget(options.targets[i])),
      options.ignoreErrors,
      options.ignoreEmptyFolders)
  }

  /**
   * Omitting `conflictResolution` and naming 'overwrite' give resolvers that
   * agree on every input, and both differ from 'skip' whenever source and
   * destination differ.
   */
  lemma DefaultPolicyIsOverwrite(target: Target, src: string, dest: string)
    requires target.conflictResolution == None
    ensures var byDefault := ResolveTarget(target).conflictResolver;
            var named := ResolveTarget(target.(conflictResolution := Some(OverwritePolicy))).conflictResolver;
            var skip := ResolveTarget(target.(conflictResolution := Some(SkipPolicy))).conflictResolver;
            byDefault(src, dest) == named(src, dest) && (src != dest ==> byDefault(src, dest) != skip(src, dest))
  {
  }
}
