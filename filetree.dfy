/**
 * An in-memory file system standing in for Node's `fs`: a map from path to
 * entry. A directory lists its children's names in the order `readdirSync`
 * gives them; a file holds its content.
 */
module FileTree {
  import opened Wrappers
  import opened Paths

  datatype Entry = Dir(children: seq<string>) | File(content: string)

  type Tree = map<string, Entry>

  predicate IsDir(tree: Tree, path: string)
  {
    path in tree && tree[path].Dir?
  }

  /** The directory holding `path` exists; a path without '/' lives in the working directory. */
  predicate ParentIsDir(tree: Tree, path: string)
  {
    var parent := GetCurrentDir(path);
    parent == "" || IsDir(tree, parent)
  }

  /**
   * Stores `entry` at `path`; a new entry's name is appended to its parent's
   * listing.
   */
  function AddEntry(tree: Tree, path: string, entry: Entry): (r: Tree)
    ensures r.Keys == tree.Keys + {path}
    ensures r[path] == entry
    ensures forall k :: k in tree && k != path && k != GetCurrentDir(path) ==> r[k] == tree[k]
    ensures var parent := GetCurrentDir(path);
            parent in tree && parent != path ==>
              r[parent] == if path !in tree && tree[parent].Dir?
                           then Dir(tree[parent].children + [GetFileName(path)])
                           else tree[parent]
  {
    var parent := GetCurrentDir(path);
    var stored := tree[path := entry];
    if path !in tree && parent != path && IsDir(tree, parent)
    then stored[parent := Dir(tree[parent].children + [GetFileName(path)])]
    else stored
  }

  /**
   * `mkdirSync(path)` (not recursive): it throws, here `None`, when the path
   * exists already (EEXIST) or its parent is not a directory.
   */
  function Mkdir(tree: Tree, path: string): (r: Option<Tree>)
    ensures r.Some? <==> path !in tree && ParentIsDir(tree, path)
    ensures r.Some? ==> r.value == AddEntry(tree, path, Dir([]))
  {
    if path !in tree && ParentIsDir(tree, path) then Some(AddEntry(tree, path, Dir([]))) else None
  }

  /**
   * `copyFileSync(src, dst)` fails when the source is one the environment
   * cannot read (`failing`), when the target's directory is missing, or when
   * the target is a directory.
   */
  predicate CopyFails(tree: Tree, failing: set<string>, src: string, dst: string)
  {
    src in failing || !ParentIsDir(tree, dst) || IsDir(tree, dst)
  }

  /** `copyFileSync(src, dst)`: a failed copy changes nothing, a good one writes the content. */
  function CopyFile(tree: Tree, failing: set<string>, src: string, dst: string): (r: Tree)
    requires src in tree && tree[src].File?
    ensures CopyFails(tree, failing, src, dst) ==> r == tree
    ensures !CopyFails(tree, failing, src, dst) ==> dst in r && r[dst] == tree[src]
    ensures !CopyFails(tree, failing, src, dst) ==> r == AddEntry(tree, dst, File(tree[src].content))
  {
    if CopyFails(tree, failing, src, dst) then tree
    else AddEntry(tree, dst, File(tree[src].content))
  }
}
