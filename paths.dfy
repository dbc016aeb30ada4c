/** The parts of Node's POSIX `path` module the generator uses: `join` of
    two segments, `basename`, `extname` and `dirname`. Normalisation of `.`
    and `..` segments and of repeated separators is not modelled. */
module Paths {
  import opened JsString

  /** Index of the last `c` in `s`, or -1. */
  function LastIndexOfChar(s: string, c: char): (r: int)
    ensures -1 <= r < |s|
    ensures r >= 0 ==> s[r] == c
    ensures forall k :: r < k < |s| ==> s[k] != c
    decreases |s|
  {
    if |s| == 0 then -1
    else if s[|s| - 1] == c then |s| - 1
    else LastIndexOfChar(s[..|s| - 1], c)
  }

  /** `path.join(a, b)` for a directory `a` and a single segment `b`. */
  function PathJoin(a: string, b: string): string
  {
    if a == "" && b == "" then "."
    else if a == "" then b
    else if b == "" then a
    else if a[|a| - 1] == '/' then a + b
    else a + "/" + b
  }

  /** Joining a segment onto a directory that does not end in `/` puts one
      `/` between them. */
  lemma {:induction false} PathJoinPlain(a: string, b: string)
    requires a != "" && a[|a| - 1] != '/' && b != ""
    ensures PathJoin(a, b) == a + "/" + b
    ensures EndsWith(PathJoin(a, b), b)
  {
    assert (a + "/" + b)[|a + "/" + b| - |b|..] == b;
  }

  /** What `PathJoin(a, _)` puts before a non-empty segment: `a` with one
      `/` after it, unless `a` is empty or already ends in `/`. */
  function DirPrefix(a: string): string
  {
    if a == "" || a[|a| - 1] == '/' then a else a + "/"
  }

  /** Joining a non-empty segment onto any directory appends it to the
      directory's prefix. */
  lemma {:induction false} PathJoinPrefix(a: string, b: string)
    requires b != ""
    ensures PathJoin(a, b) == DirPrefix(a) + b
  {
  }

  /** `path.basename(p)`: the text after the last `/`. Node first drops
      trailing `/`s, so `basename("a/b/")` is `b` while this gives `""`; the
      document paths the generator takes a basename of never end in `/`. */
  function Basename(p: string): (r: string)
    ensures !('/' in r)
  {
    var k := LastIndexOfChar(p, '/');
    p[k + 1..]
  }

  /** `path.extname(b)` of a basename: from the last `.` on, unless that
      `.` is the first character, there is none, or the name is `..`. */
  function ExtName(b: string): (r: string)
    ensures r == "" || (EndsWith(b, r) && |r| < |b| && r[0] == '.')
  {
    var k := LastIndexOfChar(b, '.');
    if k <= 0 || b == ".." then "" else b[k..]
  }

  /** `path.basename(p, path.extname(p))`: the file name without its extension. */
  function FileStem(p: string): string
  {
    var b := Basename(p);
    b[..|b| - |ExtName(b)|]
  }

  /** The stem of `dir/stem.md` is `stem`, for a non-empty stem without `/`. */
  lemma {:induction false} FileStemOfMarkdown(dir: string, stem: string)
    requires stem != "" && !('/' in stem)
    ensures FileStem(dir + "/" + stem + ".md") == stem
  {
    var p := dir + "/" + stem + ".md";
    assert forall k :: |dir| < k < |p| ==> p[k] != '/' by {
      forall k | |dir| < k < |p| ensures p[k] != '/' {
        if k <= |dir| + |stem| { assert p[k] == stem[k - |dir| - 1]; }
      }
    }
    var slash := LastIndexOfChar(p, '/');
    assert p[|dir|] == '/';
    assert slash == |dir|;
    var b := Basename(p);
    assert b == stem + ".md";
    assert b[|stem|] == '.';
    var dot := LastIndexOfChar(b, '.');
    assert dot == |stem|;
    assert b[..|stem|] == stem;
  }

  /** A path that does not end in `/` has a non-empty stem. */
  lemma {:induction false} StemNonEmpty(p: string)
    requires p != "" && p[|p| - 1] != '/'
    ensures FileStem(p) != ""
  {
    var k := LastIndexOfChar(p, '/');
    assert k < |p| - 1;
    assert |Basename(p)| > 0;
  }

  /** `path.dirname(p)` of a file path: the text before the last `/`, `/`
      for a file at the root, `.` for a bare name. */
  function Dirname(p: string): string
  {
    var k := LastIndexOfChar(p, '/');
    if k < 0 then "." else if k == 0 then "/" else p[..k]
  }

  /** The directory of `dir/name` is `dir`, for a non-empty `dir` and a name
      without `/`. */
  lemma {:induction false} DirnameOfFile(dir: string, name: string)
    requires dir != "" && !('/' in name)
    ensures Dirname(dir + "/" + name) == dir
  {
    var p := dir + "/" + name;
    assert forall k :: |dir| < k < |p| ==> p[k] != '/' by {
      forall k | |dir| < k < |p| ensures p[k] != '/' {
        assert p[k] == name[k - |dir| - 1];
      }
    }
    assert p[|dir|] == '/';
    assert LastIndexOfChar(p, '/') == |dir|;
    assert p[..|dir|] == dir;
  }
}
