# merge-dirs in Dafny

A model of the core of merge-dirs, a library that merges several source file
trees into one destination tree. The repository holds two generations of the
API, and they are modelled independently:

- the **`targets` API**: `resolveOptions` of `src/options.ts` normalises each
  target (defaults `flatten` to true and turns the `conflictResolution`
  policy name into a resolver function). `collectMergeTargets` of
  `src/utils.ts` then expands each target into one merge job per path the
  glob matcher returns. The destination of each job depends on `flatten` and
  on the matched path's directory part and base name. The engine that
  consumes these jobs is not part of this model.
- the **`paths` API** of `src/index.ts`: the two built-in conflict resolvers,
  the guard `wrapperCustomResolver` around a caller's resolver, the string
  helpers `getCurrentDir`/`getFileName`, the normalisation of `paths`
  entries, and `mergeDirs`/`recursiveMerge`. These walk a source tree,
  create missing destination directories, consult the resolver only when the
  destination file exists, and copy files.

Modules:

- `Wrappers` (`wrappers.dfy`): `Option`, which stands for an omitted option field.
- `Paths` (`paths.dfy`): JavaScript's `split('/')`/`join('/')`, `getCurrentDir`,
  `getFileName`, Node's `path.join` on normalised relative paths, and the
  first-occurrence `String.replace`.
- `TargetOptions` (`options.dfy`): `src/options.ts`.
- `MergeTargets` (`targets.dfy`): `src/utils.ts`. The matcher is a function
  parameter. `CollectMergeTargets` is the loop of the source, proved equal to
  the specification function `AllJobs`. The lemmas about `AllJobs` state the
  order, count, fields and destination rule of the jobs.
- `FileTree` (`filetree.dfy`): an in-memory file system. It is a map from path
  to `Dir(children)` or `File(content)`, where `children` is the order in
  which `readdirSync` lists a directory. `mkdirSync` and `copyFileSync` act on
  this map.
- `LegacyOptions` (`legacy_options.dfy`): the option handling of `src/index.ts`.
- `LegacyMerge` (`legacy_merge.dfy`): the walk of `src/index.ts`. The ghost
  function `Walk` states what one `recursiveMerge` call does to the tree. The
  class `FileSystem` holds the tree as a field, and its recursive methods
  update it in place. Each method is proved to give exactly the tree that
  `Walk` (or `WalkChildren`, `MergeDirsResult`) describes. The idempotence
  proof runs a second merge beside the first. The second merge's tree keeps
  pace with the first merge (`Shadow`) when two things hold. It has exactly
  the keys of the first merge's final tree. Each of its entries is either the
  final one or a file as the first merge holds it at that point.

Behaviour of `src/index.ts` as the code has it, where it differs from the
general description of the library:

- The resolver is consulted only for files, only when the destination exists,
  and never when it is the built-in overwrite resolver. Nothing is consulted
  for directories.
- The `resolver` parameter of `recursiveMerge` is never passed on by the
  recursive call (line 177), so every entry is merged with the option-level
  resolver. The reassignment at line 172 has no effect. In the model the
  resolver is part of `Config`, which never changes during a merge.
- `ignoreErrors` has no effect, although its documentation (lines 45-50)
  says that the default `false` stops at the first error. The `return` in the
  `catch` block ends only the current callback, which was about to end
  anyway. `LegacyMerge.IgnoreErrorsIrrelevant` states this. A failed copy is
  logged, and the siblings and later paths are merged either way. The model
  therefore leaves `ignoreErrors` out of `Config`.
- There is no visited set, no success/error report and no `overwriteDirectory`
  in this API.
- A `mkdirSync` that throws (its parent is missing or is not a directory) is
  not caught. It ends the whole `mergeDirs` call, and the model reports it as
  `Outcome.thrown`.
- A copy fails when the source cannot be read, when the target's directory is
  missing, or when the target is a directory. A failed copy changes nothing.

## Model

| member | source | states |
|---|---|---|
| `TargetOptions.BuiltinResolver` | src/options.ts:88-91 | 'overwrite' answers the destination and 'skip' answers the source, for every input |
| `TargetOptions.ResolveTarget` | src/options.ts:98-108 | dest, src, ignore and overwriteDirectory pass through unchanged; an omitted `flatten` becomes true, an explicit boolean wins, and an explicit `undefined` overrides the default and reads as false; an omitted policy or 'overwrite' gives a resolver answering dest; 'skip' gives one answering src; a function is passed through unwrapped |
| `TargetOptions.ResolveOptions` | src/options.ts:93-110 | root, ignoreErrors and ignoreEmptyFolders pass through; the targets keep their count and order, each one normalised |
| `TargetOptions.DefaultPolicyIsOverwrite` | src/options.ts:99-106 | omitting `conflictResolution` answers as 'overwrite' does, and differs from 'skip' whenever source and destination differ |
| `Paths.ReplaceFirst` | src/utils.ts:31 | `String.replace` with a string pattern replaces its first occurrence and keeps the rest; a string that starts with the pattern has that prefix replaced; a string without an occurrence is unchanged |
| `Paths.IndexOfFrom` | src/utils.ts:31 | the position found is the first occurrence of the pattern at or after the start; no position means no occurrence |
| `Paths.PathJoin` | src/utils.ts:36 | `path.join` never gives the empty path; an empty side contributes nothing; two non-empty paths have their segments concatenated |
| `MergeTargets.CollectMergeTargets` | src/utils.ts:10-44 | the job list the nested loops build equals `AllJobs`: each target's jobs in order, one per matched path in matcher order |
| `MergeTargets.AllJobsLength` | src/utils.ts:16-40 | the number of jobs is the sum over targets of the number of matched paths |
| `MergeTargets.AllJobsAt` | src/utils.ts:33-39 | the job for the j-th match of the i-th target sits after the jobs of the earlier targets; its root is the argument, its src is the matched path verbatim, its dest is `JobDest`, and overwriteDirectory and the resolver are the target's |
| `MergeTargets.AllJobsAppend` | src/utils.ts:16-41 | expanding two target lists one after the other concatenates their job lists |
| `MergeTargets.DestDir` | src/utils.ts:27-31 | with `flatten`, or for a path without a directory part, the destination directory is `target.dest` |
| `MergeTargets.JobDest` | src/utils.ts:27-36 | a job's dest is never empty; with `flatten`, or for a path without a directory part, it is `join(target.dest, base)` |
| `MergeTargets.UndefinedFlattenPreserves` | src/options.ts:100-102 | a target with `flatten: undefined` spread over the default is not flattened: the leading directory segment of a nested path is replaced by `target.dest` and the deeper ones are kept |
| `MergeTargets.PreserveDest` | src/utils.ts:28-31 | without `flatten`, the leading directory segment of the matched path is replaced by `target.dest` and the deeper segments are kept |
| `MergeTargets.BaseNameKept` | src/utils.ts:27-36 | the last segment of every job's dest is the matched path's base name |
| `MergeTargets.ShallowPathsAgree` | src/utils.ts:28-31 | flatten and preserve modes give the same dest for a path with at most one directory segment |
| `Paths.Split` | src/index.ts:108 | `split('/')` gives at least one part, and no part holds '/' |
| `Paths.JoinSplit` | src/index.ts:108 | `split('/')` followed by `join('/')` gives back the string |
| `Paths.SplitJoin` | src/index.ts:108 | `join('/')` of '/'-free parts followed by `split('/')` gives back the parts |
| `Paths.GetCurrentDir` | src/index.ts:107-109 | a path without '/' has the empty directory |
| `Paths.GetFileName` | src/index.ts:111-113 | the file name holds no '/', and a path without '/' is its own file name |
| `Paths.DirAndFileName` | src/index.ts:107-113 | a path with a '/' is `getCurrentDir + "/" + getFileName`; without one the directory is "" and the name is the path; a file name never holds '/' |
| `Paths.DirAndFileNameOfJoin` | src/index.ts:107-113 | the file name of `a/b` is that of `b`, and its directory is `a` extended by `b`'s directory |
| `LegacyOptions.Apply` | src/index.ts:79-86 | the built-in overwrite resolver answers the destination and skip answers the source |
| `LegacyOptions.Guard` | src/index.ts:88-101 | the guarded answer is always the source, the destination or a sibling of the destination; an allowed answer is kept and any other answer becomes the destination |
| `LegacyOptions.WrapperCustomResolver` | src/index.ts:88-101 | the wrapped resolver answers the guarded answer on every input |
| `LegacyOptions.WrapIdempotent` | src/index.ts:88-101 | wrapping a resolver twice answers exactly as wrapping it once |
| `LegacyOptions.ResolvePath` | src/index.ts:119-137 | a string entry is its own rootDir and path with relativePath ""; an object entry has the last segment of its path as relativePath, `join(rootDir, path)` as path, and rootDir joined with the path's directory part as rootDir |
| `LegacyOptions.ResolveOptions` | src/index.ts:115-144 | dest and the flags pass through, the paths keep count and order; no policy or 'overwrite' selects the overwrite resolver, 'skip' the skip resolver, a function is wrapped; every selected resolver answers only allowed paths |
| `FileTree.AddEntry` | src/index.ts:169 | storing an entry adds its path, changes no other entry but the parent, and a new entry's name is appended to its parent's listing |
| `FileTree.Mkdir` | src/index.ts:169 | `mkdirSync` without `recursive` succeeds exactly when the path does not exist and its parent is a directory, and then adds an empty directory; otherwise it throws |
| `FileTree.CopyFile` | src/index.ts:193 | a failed copy leaves the tree as it was; a good one gives the target the source's content and changes nothing else but the parent's listing |
| `LegacyMerge.Walk` | src/index.ts:150-202 | a walk creates, removes and changes nothing outside dest, removes nothing, keeps files as files, only appends to directory listings, and never creates dest itself |
| `LegacyMerge.WalkChildren` | src/index.ts:176-178 | the entries of a directory are walked in listing order until one throws, with the same guarantees as `Walk` |
| `LegacyMerge.MergePaths` | src/index.ts:204-206 | the resolved paths are merged in order until one throws, with the same guarantees as `Walk` |
| `LegacyMerge.MergeDirsResult` | src/index.ts:146-207 | `mergeDirs` creates, removes and changes nothing outside dest |
| `LegacyMerge.ConfigOf` | src/index.ts:147-148 | the merge runs with the option's dest and with ignoreEmptyFolders defaulting to false |
| `LegacyMerge.NoOpCases` | src/index.ts:156-164 | a missing source, or an empty directory with `ignoreEmptyFolders`, leaves the tree unchanged |
| `LegacyMerge.DirectoryCreated` | src/index.ts:166-177 | for a directory with a relativePath whose target is absent, the entries are walked on the tree holding the new empty directory `dest/relativePath`, which is a directory after the walk; if its parent is not a directory, `mkdirSync` throws and nothing changes |
| `LegacyMerge.DirectoryExisting` | src/index.ts:166-177 | when `dest/relativePath` exists, nothing is created, the entries are walked on the tree as it is, and an existing directory there keeps its listing |
| `LegacyMerge.PlainDirectoryMergesIntoDest` | src/index.ts:166-177 | a string-form directory is not recreated: its entries are walked with their own names as relativePath, so they land directly under dest |
| `LegacyMerge.FileBranch` | src/index.ts:180-199 | a file goes to `join(dest, relativePath or fileName)`; the resolver is asked exactly when that exists and is not overwrite, and its answer is the source, that path or a sibling of it; an answer equal to the source writes nothing; a failed copy changes nothing and does not stop the merge; otherwise the chosen path gets the source's content and nothing else changes but the parent's listing |
| `LegacyMerge.FileDest` | src/index.ts:180-184 | a file's first destination `join(dest, relativePath or fileName)` and its directory lie inside dest |
| `LegacyMerge.FinalDest` | src/index.ts:186-189 | the first destination is kept when it does not exist or the resolver is overwrite; a guarded resolver's answer is allowed |
| `LegacyMerge.CopyStep` | src/index.ts:191-200 | an answer equal to the source, or a failed copy, leaves the tree as it was; otherwise the chosen path gets the source's content |
| `LegacyMerge.ChildTarget` | src/index.ts:176-184 | the entry `n` of a directory merged into `d` (dest for a plain path, `dest/relativePath` otherwise) is sent to `d/n`, which lies inside dest and whose directory is `d` |
| `LegacyMerge.ChildFileLands` | src/index.ts:179-200 | with the overwrite resolver, a readable file entry of a directory merged into the directory `d` is copied to `d/n` and nothing else changes |
| `LegacyMerge.WalkChildrenFilesLand` | src/index.ts:176-178 | with the overwrite resolver, walking file entries into an existing directory `d` puts each entry's content at `d/<name>`, never throws, and keeps every other file |
| `LegacyMerge.PlainDirectoryFilesLand` | src/index.ts:13-19 | one `recursiveMerge` of a string-form directory `src/demo`, given the overwrite resolver, `dest` an existing directory and entries that are readable files with no directory at `dest/<name>`, puts each entry's content at `dest/<name>` and does not throw; by `SinglePathMerge` this is `mergeDirs({ dest, paths: ['src/demo'] })` |
| `LegacyMerge.CreatedDirectoryFilesLand` | src/index.ts:166-178 | when `dest/name` is absent, it is created and each file entry's content ends up at `dest/name/<entry>` |
| `LegacyMerge.NamedDirectoryFilesLand` | src/index.ts:166-178 | a directory walked with a one-segment relativePath `name` puts each file entry's content at `dest/name/<entry>`, and `dest/name` is a directory afterwards, created if absent |
| `LegacyMerge.ObjectDirectoryFilesLand` | src/index.ts:28-34 | one `recursiveMerge` of an object-form entry `{ rootDir: 'src', path: 'demo' }`, given the overwrite resolver, `dest` an existing directory, `dest/demo` absent or a directory, and entries that are readable files with no directory at `dest/demo/<name>`, makes `dest/demo` a directory holding each entry's content at `dest/demo/<name>`; by `SinglePathMerge` this is `mergeDirs` with that single entry |
| `LegacyMerge.SinglePathMerge` | src/index.ts:204-206 | `mergeDirs` with a single entry in `paths` gives exactly the outcome of one `recursiveMerge` of that resolved entry |
| `LegacyMerge.IgnoreErrorsIrrelevant` | src/index.ts:194-198 | changing `ignoreErrors` leaves the outcome of `mergeDirs` unchanged |
| `LegacyMerge.CopyShadow` | src/index.ts:191-200 | run again from a tree that keeps pace with the first merge, a copy fails exactly when it failed the first time, and the trees keep pace |
| `LegacyMerge.WalkShadow` | src/index.ts:150-202 | with the overwrite resolver, `recursiveMerge` run again from a tree that keeps pace throws exactly when the first run threw, and the trees keep pace |
| `LegacyMerge.WalkChildrenShadow` | src/index.ts:176-178 | the same for the `forEach` over a directory's entries |
| `LegacyMerge.MergePathsShadow` | src/index.ts:204-206 | the same for the top-level `forEach` over the resolved paths |
| `LegacyMerge.MergePathsTwice` | src/index.ts:204-206 | with the overwrite resolver, merging the resolved paths into the tree a first merge left gives that same tree and throw flag |
| `LegacyMerge.OverwriteIdempotent` | src/index.ts:146-207 | with `conflictResolution` omitted or 'overwrite', a second `mergeDirs` on the result of the first is ready to run and gives the same outcome: it is idempotent |
| `LegacyMerge.CopyStepKept` | src/index.ts:180-199 | the file branch writes only inside dest, even with a caller's resolver |
| `LegacyMerge.SkipKeepsExistingFiles` | src/index.ts:187-189 | with `conflictResolution: 'skip'`, every file that existed before the merge has the same content after it |
| `LegacyMerge.FileSystem.MakeDirectory` | src/index.ts:169 | `fs.mkdirSync` in place: throws exactly as `Mkdir` says, else the tree is `Mkdir`'s |
| `LegacyMerge.FileSystem.CopyFileSync` | src/index.ts:193 | `fs.copyFileSync` in place: succeeds exactly when the copy does not fail, and the tree is `CopyFile`'s |
| `LegacyMerge.FileSystem.MergeFile` | src/index.ts:180-199 | the file branch in place gives the tree the file step describes |
| `LegacyMerge.FileSystem.MergeChildren` | src/index.ts:176-178 | the `forEach` over a directory's entries in place gives the tree and throw flag of `WalkChildren` |
| `LegacyMerge.FileSystem.RecursiveMerge` | src/index.ts:150-202 | `recursiveMerge` in place gives the tree and throw flag of `Walk` |
| `LegacyMerge.FileSystem.MergeDirs` | src/index.ts:146-207 | `mergeDirs` in place gives the tree and throw flag of `MergeDirsResult` |

## Left out

- The glob matcher (fast-glob) and the `await` around it: the matcher is a function parameter from patterns, ignore list and working directory to the sequence of matched relative paths.
- Node's full `path.join`/`path.parse` normalisation (`.`, `..`, repeated or trailing slashes): paths are taken as normalised relative paths of non-empty `/`-separated segments, and `join` concatenates segments.
- The `$` replacement patterns of `String.replace`: `dest` is taken to contain no `$`.
- Promise-returning resolvers: resolvers are synchronous string functions.
- Real file-system calls: `existsSync`, `lstatSync`, `readdirSync`, `mkdirSync` and `copyFileSync` act on an in-memory map. Which copies fail is given as a set of unreadable source paths.
- Symbolic links: `lstatSync` sees only directories and files.
- Failures of `existsSync`, `lstatSync` and `readdirSync`: in the model they never throw, so a permission error (EACCES) or an entry removed between listing and visiting (ENOENT) is not modelled. In the source such an error escapes `mergeDirs`.
- The merge requires a non-empty `dest` and source paths that neither contain `dest` nor lie inside it. Otherwise the walk could visit directories it has just created. The source does not check this.
- `console.error` logging of a failed copy.
- `ignoreErrors` in `src/index.ts`: it is read but changes nothing (`LegacyMerge.IgnoreErrorsIrrelevant`), so it is not part of the model's configuration.
- `LegacyMerge.OverwriteIdempotent` assumes that source directories list names without '/', as `readdirSync` does. The tree model allows such names. With them, a copy to `dest/q/x` can fail in the first merge because `dest/q` is created only later, and then succeed in the second merge.
- The `rootDir` that `recursiveMerge` passes along: it is never read.
- The identity of resolver objects: a `Resolver` datatype tag says whether the resolver is the built-in overwrite one.
- src/1.ts is an abandoned draft that calls an undefined function. It is not part of this model.
- bin/merge-dirs.js (command-line wiring) and the build and test configuration are not part of this model.
- The merge engine of the `targets` API (`overwriteDirectory`, the visited set, the success/error report, termination on error) is in no file of this model's source, so it is not modelled. Jobs from `collectMergeTargets` are not fed into the `paths`-based walk.
