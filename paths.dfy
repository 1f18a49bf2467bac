/**
 * The string and path helpers both halves of merge-dirs rely on: JavaScript's
 * `split('/')` and `join('/')`, the `getCurrentDir`/`getFileName` helpers of
 * src/index.ts, Node's `path.join` on normalised relative paths, and the
 * first-occurrence `String.replace` used by src/utils.ts.
 */
module Paths {
  import opened Wrappers

  lemma AppendAssoc<T>(x: seq<T>, y: seq<T>, z: seq<T>)
    ensures x + (y + z) == (x + y) + z
  {
  }

  /** `s.split('/')` in JavaScript: always at least one part, no part holds a '/'. */
  function Split(s: string): (parts: seq<string>)
    ensures |parts| >= 1
    ensures forall i :: 0 <= i < |parts| ==> '/' !in parts[i]
  {
    if |s| == 0 then [""]
    else if s[0] == '/' then [""] + Split(s[1..])
    else
      var rest := Split(s[1..]);
      [[s[0]] + rest[0]] + rest[1..]
  }

  /** `parts.join('/')` in JavaScript. */
  function Join(parts: seq<string>): string
  {
    if |parts| == 0 then ""
    else if |parts| == 1 then parts[0]
    else parts[0] + "/" + Join(parts[1..])
  }

  /** Joining the parts of a split gives the string back. */
  lemma {:induction false} JoinSplit(s: string)
    ensures Join(Split(s)) == s
  {
    if |s| == 0 {
    } else if s[0] == '/' {
      JoinSplit(s[1..]);
      assert Split(s) == [""] + Split(s[1..]);
      assert s == "/" + s[1..];
    } else {
      var rest := Split(s[1..]);
      JoinSplit(s[1..]);
      var parts := [[s[0]] + rest[0]] + rest[1..];
      assert Split(s) == parts;
      if |rest| == 1 {
        assert Join(parts) == [s[0]] + rest[0];
      } else {
        assert parts[1..] == rest[1..];
        assert Join(rest) == rest[0] + "/" + Join(rest[1..]);
        assert Join(parts) == [s[0]] + rest[0] + "/" + Join(rest[1..]);
      }
      assert s == [s[0]] + s[1..];
    }
  }

  /** A string without '/' splits into itself alone. */
  lemma {:induction false} SplitNoSlash(s: string)
    requires '/' !in s
    ensures Split(s) == [s]
  {
    if |s| > 0 {
      assert '/' !in s[1..] by {
        forall k | 0 <= k < |s[1..]| ensures s[1..][k] != '/' {
          assert s[1..][k] == s[k + 1];
        }
      }
      SplitNoSlash(s[1..]);
      assert s == [s[0]] + s[1..];
    }
  }

  /** A string holding a '/' splits into at least two parts. */
  lemma {:induction false} SplitSlash(s: string)
    requires '/' in s
    ensures |Split(s)| >= 2
  {
    if s[0] != '/' {
      var k :| 0 <= k < |s| && s[k] == '/';
      assert s[1..][k - 1] == '/';
      SplitSlash(s[1..]);
    }
  }

  /** Splitting distributes over a '/' written between two strings. */
  lemma {:induction false} SplitConcat(a: string, b: string)
    ensures Split(a + "/" + b) == Split(a) + Split(b)
  {
    var s := a + "/" + b;
    if |a| == 0 {
      assert s == "/" + b;
      assert s[0] == '/' && s[1..] == b;
      assert Split(s) == [""] + Split(b);
    } else {
      assert s[0] == a[0];
      assert s[1..] == a[1..] + "/" + b;
      SplitConcat(a[1..], b);
      var t := Split(s[1..]);
      var u := Split(a[1..]);
      assert t == u + Split(b);
      if a[0] == '/' {
        assert Split(s) == [""] + t;
        assert Split(a) == [""] + u;
        AppendAssoc([""], u, Split(b));
      } else {
        var first := [[a[0]] + u[0]];
        assert t[0] == u[0];
        assert t[1..] == u[1..] + Split(b);
        assert Split(s) == first + (u[1..] + Split(b));
        assert Split(a) == first + u[1..];
        AppendAssoc(first, u[1..], Split(b));
      }
    }
  }

  /** The last part can be split off a join of two or more parts. */
  lemma {:induction false} JoinLast(parts: seq<string>)
    requires |parts| >= 2
    ensures Join(parts) == Join(parts[..|parts| - 1]) + "/" + parts[|parts| - 1]
  {
    if |parts| > 2 {
      var tail := parts[1..];
      JoinLast(tail);
      assert tail[..|tail| - 1] == parts[..|parts| - 1][1..];
      assert tail[|tail| - 1] == parts[|parts| - 1];
    }
  }

  /** Splitting a join of '/'-free parts gives the parts back. */
  lemma {:induction false} SplitJoin(parts: seq<string>)
    requires |parts| >= 1
    requires forall i :: 0 <= i < |parts| ==> '/' !in parts[i]
    ensures Split(Join(parts)) == parts
  {
    if |parts| == 1 {
      SplitNoSlash(parts[0]);
    } else {
      SplitJoin(parts[1..]);
      SplitConcat(parts[0], Join(parts[1..]));
      SplitNoSlash(parts[0]);
      assert parts == [parts[0]] + parts[1..];
    }
  }

  /** A join starts with its first part; swapping that part changes only the start. */
  lemma JoinReplaceHead(parts: seq<string>, x: string)
    requires |parts| >= 1
    ensures var rest := Join(parts)[|parts[0]|..];
            Join(parts) == parts[0] + rest && Join([x] + parts[1..]) == x + rest
  {
    var xs := [x] + parts[1..];
    var head := parts[0];
    if |parts| > 1 {
      var tail := "/" + Join(parts[1..]);
      assert xs[0] == x && xs[1..] == parts[1..];
      assert Join(parts) == head + tail;
      assert Join(xs) == x + tail;
      assert (head + tail)[|head|..] == tail;
    } else {
      assert xs == [x];
      assert Join(parts) == head;
      assert head[|head|..] == "";
    }
  }

  /** `getCurrentDir` of src/index.ts: every part before the last, joined with '/'. */
  function GetCurrentDir(path: string): (dir: string)
    ensures '/' !in path ==> dir == ""
  {
    var parts := Split(path);
    assert '/' !in path ==> parts == [path] by {
      if '/' !in path { SplitNoSlash(path); }
    }
    Join(parts[..|parts| - 1])
  }

  /** `getFileName` of src/index.ts: the last part. */
  function GetFileName(path: string): (name: string)
    ensures '/' !in name
    ensures '/' !in path ==> name == path
  {
    var parts := Split(path);
    assert '/' !in path ==> parts == [path] by {
      if '/' !in path { SplitNoSlash(path); }
    }
    parts[|parts| - 1]
  }

  /**
   * A path with a '/' is its directory, a '/', and its file name; a path
   * without one has the empty directory and is its own file name.
   */
  lemma DirAndFileName(path: string)
    ensures '/' in path ==> GetCurrentDir(path) + "/" + GetFileName(path) == path
    ensures '/' !in path ==> GetCurrentDir(path) == "" && GetFileName(path) == path
    ensures '/' !in GetFileName(path)
  {
    JoinSplit(path);
    if '/' in path {
      SplitSlash(path);
      JoinLast(Split(path));
    } else {
      SplitNoSlash(path);
    }
  }

  /** The file name of `a/b` is the file name of `b`, and its directory extends `a`. */
  lemma DirAndFileNameOfJoin(a: string, b: string)
    ensures GetFileName(a + "/" + b) == GetFileName(b)
    ensures GetCurrentDir(a + "/" + b) == if '/' in b then a + "/" + GetCurrentDir(b) else a
  {
    var s := a + "/" + b;
    SplitConcat(a, b);
    var pa, pb := Split(a), Split(b);
    var ps := pa + pb;
    assert Split(s) == ps;
    assert GetFileName(s) == ps[|ps| - 1] == pb[|pb| - 1];
    assert GetCurrentDir(s) == Join(ps[..|ps| - 1]);
    JoinSplit(a);
    if '/' in b {
      SplitSlash(b);
      assert ps[..|ps| - 1] == pa + pb[..|pb| - 1];
      JoinAppend(pa, pb[..|pb| - 1]);
      assert GetCurrentDir(b) == Join(pb[..|pb| - 1]);
    } else {
      SplitNoSlash(b);
      assert ps[..|ps| - 1] == pa;
    }
  }

  /** Joining two non-empty lists of parts puts a '/' between their joins. */
  lemma {:induction false} JoinAppend(xs: seq<string>, ys: seq<string>)
    requires |xs| >= 1 && |ys| >= 1
    ensures Join(xs + ys) == Join(xs) + "/" + Join(ys)
  {
    if |xs| > 1 {
      JoinAppend(xs[1..], ys);
      assert (xs + ys)[1..] == xs[1..] + ys;
    } else {
      assert (xs + ys)[1..] == ys;
    }
  }

  /** A normalised relative path: non-empty parts separated by single '/'. */
  predicate ValidPath(path: string)
  {
    forall seg :: seg in Split(path) ==> seg != ""
  }

  /**
   * Node's `path.join` on two normalised relative paths: never the empty
   * path; an empty argument contributes nothing, joining nothing gives ".",
   * and two non-empty paths have their segments concatenated.
   */
  function PathJoin(a: string, b: string): (r: string)
    ensures r != ""
    ensures a == "" && b != "" ==> r == b
    ensures a != "" && b == "" ==> r == a
    ensures a != "" && b != "" ==> Split(r) == Split(a) + Split(b)
  {
    if a == "" && b == "" then "."
    else if a == "" then b
    else if b == "" then a
    else
      SplitConcat(a, b);
      a + "/" + b
  }

  /** Does `pat` occur in `s` at position `i`? */
  predicate OccursAt(s: string, pat: string, i: nat)
  {
    i + |pat| <= |s| && s[i..i + |pat|] == pat
  }

  /** First position at or after `from` where `pat` occurs in `s`. */
  function IndexOfFrom(s: string, pat: string, from: nat): (r: Option<nat>)
    requires from <= |s|
    decreases |s| - from
    ensures r.Some? ==> from <= r.value && OccursAt(s, pat, r.value)
    ensures r.Some? ==> forall j :: from <= j < r.value ==> !OccursAt(s, pat, j)
    ensures r.None? ==> forall j :: from <= j <= |s| ==> !OccursAt(s, pat, j)
  {
    if OccursAt(s, pat, from) then Some(from)
    else if from == |s| then None
    else IndexOfFrom(s, pat, from + 1)
  }

  /**
   * `s.replace(pat, rep)` in JavaScript with a string pattern: the first
   * occurrence of `pat` is replaced by `rep`; without one, `s` is unchanged.
   */
  function ReplaceFirst(s: string, pat: string, rep: string): (r: string)
    ensures OccursAt(s, pat, 0) ==> r == rep + s[|pat|..]
    ensures (forall j :: 0 <= j <= |s| ==> !OccursAt(s, pat, j)) ==> r == s
    ensures forall i :: 0 <= i <= |s| && OccursAt(s, pat, i) && (forall j :: 0 <= j < i ==> !OccursAt(s, pat, j)) ==>
              r == s[..i] + rep + s[i + |pat|..]
  {
    match IndexOfFrom(s, pat, 0)
    case Some(i) => s[..i] + rep + s[i + |pat|..]
    case None => s
  }
}
