/** The file system as the generator sees it: a map from path to contents.
    Reads fail on a missing path; writes replace a file's contents; a
    recursive forced removal drops a whole directory tree. */
module FileStore {
  import opened Wrappers
  import opened Errors

  /** `p` is the directory `dir` or lies somewhere below it. */
  predicate Under(p: string, dir: string)
  {
    p == dir || (|p| > |dir| && p[..|dir|] == dir && p[|dir|] == '/')
  }

  lemma {:induction false} UnderJoin(dir: string, rest: string)
    ensures Under(dir + "/" + rest, dir)
  {
    assert (dir + "/" + rest)[..|dir|] == dir;
    assert (dir + "/" + rest)[|dir|] == '/';
  }

  /** The two file maps hold the same files outside the tree `dir`. */
  ghost predicate SameOutside(f1: map<string, string>, f2: map<string, string>, dir: string)
  {
    forall p :: !Under(p, dir) ==> (p in f1 <==> p in f2) && (p in f1 ==> f1[p] == f2[p])
  }

  lemma {:induction false} SameOutsideTrans(f1: map<string, string>, f2: map<string, string>, f3: map<string, string>, dir: string)
    requires SameOutside(f1, f2, dir) && SameOutside(f2, f3, dir)
    ensures SameOutside(f1, f3, dir)
  {
  }

  /** Writing a file inside `dir` changes nothing outside it. */
  lemma {:induction false} SameOutsideWrite(f: map<string, string>, p: string, text: string, dir: string)
    requires Under(p, dir)
    ensures SameOutside(f[p := text], f, dir)
  {
  }

  /** The state a run leaves the disk in, and the error that ended it, if any. */
  datatype Outcome = Outcome(files: map<string, string>, failure: Option<BuildError>)

  /** `fs.readFileSync(path, "utf8")`: the contents, or the error it throws. */
  function ReadFile(files: map<string, string>, path: string): (r: Result<string, BuildError>)
    ensures r.Ok? <==> path in files
    ensures r.Ok? ==> r.value == files[path]
    ensures r.Err? ==> r.error == IOFailure(path)
  {
    if path in files then Ok(files[path]) else Err(IOFailure(path))
  }

  /** `fs.rmSync(dir, { force: true, recursive: true })`. */
  function RemoveTree(files: map<string, string>, dir: string): (r: map<string, string>)
    ensures forall p :: p in r ==> p in files && !Under(p, dir) && r[p] == files[p]
    ensures forall p :: p in files && !Under(p, dir) ==> p in r
  {
    map p | p in files && !Under(p, dir) :: files[p]
  }

  /** One pass of a loop that writes a page per item: make the page from the
      files as they are now and write it to the item's path; after an error,
      nothing more happens. */
  function WriteStep<T>(o: Outcome, x: T, page: (map<string, string>, T) -> Result<string, BuildError>, path: T -> string): Outcome
  {
    if o.failure.Some? then o
    else match page(o.files, x)
      case Err(e) => Outcome(o.files, Some(e))
      case Ok(text) => Outcome(o.files[path(x) := text], None)
  }

  /** The loop over all items. */
  function Run<T>(files: map<string, string>, xs: seq<T>, page: (map<string, string>, T) -> Result<string, BuildError>, path: T -> string): Outcome
    decreases |xs|
  {
    if |xs| == 0 then Outcome(files, None)
    else WriteStep(Run(files, xs[..|xs| - 1], page, path), xs[|xs| - 1], page, path)
  }

  lemma {:induction false} RunSnoc<T>(files: map<string, string>, xs: seq<T>, n: int, page: (map<string, string>, T) -> Result<string, BuildError>, path: T -> string)
    requires 0 <= n < |xs|
    ensures Run(files, xs[..n + 1], page, path) == WriteStep(Run(files, xs[..n], page, path), xs[n], page, path)
  {
    assert xs[..n + 1][..n] == xs[..n];
  }

  lemma {:induction false} RunPrefixFails<T>(files: map<string, string>, xs: seq<T>, n: int, page: (map<string, string>, T) -> Result<string, BuildError>, path: T -> string)
    requires 0 <= n <= |xs|
    requires Run(files, xs[..n], page, path).failure.Some?
    ensures Run(files, xs, page, path) == Run(files, xs[..n], page, path)
    decreases |xs| - n
  {
    if n < |xs| {
      RunSnoc(files, xs, n, page, path);
      RunPrefixFails(files, xs, n + 1, page, path);
    } else {
      assert xs[..n] == xs;
    }
  }

  /** A run whose items all have their paths inside `dir` changes nothing
      outside `dir`. */
  lemma {:induction false} RunOutside<T>(files: map<string, string>, xs: seq<T>, page: (map<string, string>, T) -> Result<string, BuildError>, path: T -> string, dir: string)
    requires forall j :: 0 <= j < |xs| ==> Under(path(xs[j]), dir)
    ensures SameOutside(Run(files, xs, page, path).files, files, dir)
    decreases |xs|
  {
    if |xs| > 0 {
      var init := xs[..|xs| - 1];
      assert forall j :: 0 <= j < |init| ==> init[j] == xs[j];
      RunOutside(files, init, page, path, dir);
    }
  }

  /** A file that is no item's path is left as it was. */
  lemma {:induction false} RunKeeps<T>(files: map<string, string>, xs: seq<T>, page: (map<string, string>, T) -> Result<string, BuildError>, path: T -> string, p: string)
    requires forall j :: 0 <= j < |xs| ==> path(xs[j]) != p
    ensures p in Run(files, xs, page, path).files <==> p in files
    ensures p in files ==> Run(files, xs, page, path).files[p] == files[p]
    decreases |xs|
  {
    if |xs| > 0 {
      var init := xs[..|xs| - 1];
      assert forall j :: 0 <= j < |init| ==> init[j] == xs[j];
      RunKeeps(files, init, page, path, p);
    }
  }

  /** A run whose pages do not look at the files ends without an error
      exactly when every page can be made. */
  lemma {:induction false} RunFixedOk<T>(files: map<string, string>, xs: seq<T>, page: (map<string, string>, T) -> Result<string, BuildError>, path: T -> string)
    requires forall f1: map<string, string>, f2: map<string, string>, j :: 0 <= j < |xs| ==> page(f1, xs[j]) == page(f2, xs[j])
    ensures Run(files, xs, page, path).failure.None? <==> forall j :: 0 <= j < |xs| ==> page(files, xs[j]).Ok?
    decreases |xs|
  {
    if |xs| > 0 {
      var init := xs[..|xs| - 1];
      assert forall j :: 0 <= j < |init| ==> init[j] == xs[j];
      RunFixedOk(files, init, page, path);
    }
  }

  /** The error such a run ends with is that of the first page, in order,
      that cannot be made. */
  lemma {:induction false} RunFixedFirstError<T>(files: map<string, string>, xs: seq<T>, page: (map<string, string>, T) -> Result<string, BuildError>, path: T -> string, i: int)
    requires forall f1: map<string, string>, f2: map<string, string>, j :: 0 <= j < |xs| ==> page(f1, xs[j]) == page(f2, xs[j])
    requires 0 <= i < |xs|
    requires forall j :: 0 <= j < i ==> page(files, xs[j]).Ok?
    requires page(files, xs[i]).Err?
    ensures Run(files, xs, page, path).failure == Some(page(files, xs[i]).error)
    decreases |xs|
  {
    var init := xs[..|xs| - 1];
    assert forall j :: 0 <= j < |init| ==> init[j] == xs[j];
    if i < |xs| - 1 {
      RunFixedFirstError(files, init, page, path, i);
    } else {
      RunFixedOk(files, init, page, path);
    }
  }

  /** Such a run without an error writes each item's page to its path, when
      no two items share a path. */
  lemma {:induction false} RunFixedWrites<T>(files: map<string, string>, xs: seq<T>, page: (map<string, string>, T) -> Result<string, BuildError>, path: T -> string)
    requires forall f1: map<string, string>, f2: map<string, string>, j :: 0 <= j < |xs| ==> page(f1, xs[j]) == page(f2, xs[j])
    requires forall i, j :: 0 <= i < j < |xs| ==> path(xs[i]) != path(xs[j])
    requires Run(files, xs, page, path).failure.None?
    ensures forall j :: 0 <= j < |xs| ==>
              path(xs[j]) in Run(files, xs, page, path).files && page(files, xs[j]).Ok?
              && Run(files, xs, page, path).files[path(xs[j])] == page(files, xs[j]).value
    decreases |xs|
  {
    if |xs| > 0 {
      var init := xs[..|xs| - 1];
      assert forall j :: 0 <= j < |init| ==> init[j] == xs[j];
      RunFixedWrites(files, init, page, path);
    }
  }

  /** The page of `x` depends only on the files outside `dir`. */
  ghost predicate Insensitive<T>(page: (map<string, string>, T) -> Result<string, BuildError>, dir: string, x: T)
  {
    forall f1, f2 :: SameOutside(f1, f2, dir) ==> page(f1, x) == page(f2, x)
  }

  /** What the run lemmas assume: every path inside `dir`, every page
      independent of it. */
  ghost predicate Confined<T>(xs: seq<T>, page: (map<string, string>, T) -> Result<string, BuildError>, path: T -> string, dir: string)
  {
    forall j :: 0 <= j < |xs| ==> Under(path(xs[j]), dir) && Insensitive(page, dir, xs[j])
  }

  lemma {:induction false} ConfinedInit<T>(xs: seq<T>, page: (map<string, string>, T) -> Result<string, BuildError>, path: T -> string, dir: string)
    requires |xs| > 0 && Confined(xs, page, path, dir)
    ensures Confined(xs[..|xs| - 1], page, path, dir)
    ensures Insensitive(page, dir, xs[|xs| - 1])
  {
    assert forall j :: 0 <= j < |xs| - 1 ==> xs[..|xs| - 1][j] == xs[j];
  }

  /** A confined run ends without an error exactly when every page can be
      made from the files it started with. */
  lemma {:induction false} RunOk<T>(files: map<string, string>, xs: seq<T>, page: (map<string, string>, T) -> Result<string, BuildError>, path: T -> string, dir: string)
    requires Confined(xs, page, path, dir)
    ensures Run(files, xs, page, path).failure.None? <==> forall j :: 0 <= j < |xs| ==> page(files, xs[j]).Ok?
    decreases |xs|
  {
    if |xs| > 0 {
      var init := xs[..|xs| - 1];
      ConfinedInit(xs, page, path, dir);
      assert forall j :: 0 <= j < |init| ==> init[j] == xs[j];
      RunOk(files, init, page, path, dir);
      RunOutside(files, init, page, path, dir);
    }
  }

  /** The error a confined run ends with is that of the first page, in
      order, that cannot be made. */
  lemma {:induction false} RunFirstError<T>(files: map<string, string>, xs: seq<T>, page: (map<string, string>, T) -> Result<string, BuildError>, path: T -> string, dir: string, i: int)
    requires Confined(xs, page, path, dir)
    requires 0 <= i < |xs|
    requires forall j :: 0 <= j < i ==> page(files, xs[j]).Ok?
    requires page(files, xs[i]).Err?
    ensures Run(files, xs, page, path).failure == Some(page(files, xs[i]).error)
    decreases |xs|
  {
    var init := xs[..|xs| - 1];
    ConfinedInit(xs, page, path, dir);
    assert forall j :: 0 <= j < |init| ==> init[j] == xs[j];
    if i < |xs| - 1 {
      RunFirstError(files, init, page, path, dir, i);
    } else {
      RunOk(files, init, page, path, dir);
      RunOutside(files, init, page, path, dir);
    }
  }

  /** A confined run without an error writes each item's page to its path,
      when no two items share a path, and leaves every other file as it was. */
  lemma {:induction false} RunWrites<T>(files: map<string, string>, xs: seq<T>, page: (map<string, string>, T) -> Result<string, BuildError>, path: T -> string, dir: string)
    requires Confined(xs, page, path, dir)
    requires forall i, j :: 0 <= i < j < |xs| ==> path(xs[i]) != path(xs[j])
    requires Run(files, xs, page, path).failure.None?
    ensures forall j :: 0 <= j < |xs| ==>
              path(xs[j]) in Run(files, xs, page, path).files && page(files, xs[j]).Ok?
              && Run(files, xs, page, path).files[path(xs[j])] == page(files, xs[j]).value
    ensures forall p :: (forall j :: 0 <= j < |xs| ==> path(xs[j]) != p) ==>
              (p in Run(files, xs, page, path).files <==> p in files)
              && (p in files ==> Run(files, xs, page, path).files[p] == files[p])
    decreases |xs|
  {
    if |xs| > 0 {
      var init := xs[..|xs| - 1];
      var last := xs[|xs| - 1];
      ConfinedInit(xs, page, path, dir);
      assert forall j :: 0 <= j < |init| ==> init[j] == xs[j];
      RunWrites(files, init, page, path, dir);
      RunOutside(files, init, page, path, dir);
    }
  }

  /** The disk the generator reads its sources from and writes its site to. */
  class Disk {
    var files: map<string, string>

    constructor(initial: map<string, string>)
      ensures files == initial
    {
      files := initial;
    }

    method Read(path: string) returns (r: Result<string, BuildError>)
      ensures r == ReadFile(files, path)
    {
      if path in files {
        r := Ok(files[path]);
      } else {
        r := Err(IOFailure(path));
      }
    }

    /** `fs.writeFile` with flag `w`: the file now holds `contents`. */
    method Write(path: string, contents: string)
      modifies this
      ensures files == old(files)[path := contents]
    {
      files := files[path := contents];
    }

    method Remove(dir: string)
      modifies this
      ensures files == RemoveTree(old(files), dir)
    {
      files := RemoveTree(files, dir);
    }
  }
}
