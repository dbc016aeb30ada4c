/** Which directory entries become source documents: `getMdFiles` with
    `endsWithAny` (index.ts lines 33-48 and 158-165) and `getMdFilesFromDir`
    (index.js lines 104-114). The recursive directory listing is the input:
    a sequence of entries, each with the directory it was found in. */
module Discovery {
  import opened JsString
  import opened Paths

  /** One entry of a recursive `readdirSync` with file types. */
  datatype Dirent = Dirent(parentPath: string, name: string, isDirectory: bool)

  const MarkdownExtensions: seq<string> := [".md"]
  const IgnoreDirectory := "drafts"
  const OutputDirectory := "build"
  const LegacyExtension := ".md"

  /** `str` ends with one of `suffixes`. */
  predicate EndsWithSome(str: string, suffixes: seq<string>)
  {
    exists i :: 0 <= i < |suffixes| && EndsWith(str, suffixes[i])
  }

  /** `endsWithAny`: try the suffixes in order and stop at the first match. */
  method EndsWithAny(str: string, suffixes: seq<string>) returns (b: bool)
    ensures b <==> EndsWithSome(str, suffixes)
  {
    for i := 0 to |suffixes|
      invariant forall j :: 0 <= j < i ==> !EndsWith(str, suffixes[j])
    {
      if EndsWith(str, suffixes[i]) {
        return true;
      }
    }
    return false;
  }

  /** With the single extension `.md`, the two variants test file names alike. */
  lemma {:induction false} SingleExtension(name: string)
    ensures EndsWithSome(name, MarkdownExtensions) <==> EndsWith(name, LegacyExtension)
  {
    if EndsWith(name, LegacyExtension) {
      assert EndsWith(name, MarkdownExtensions[0]);
    }
  }

  /** `path.join(dirent.parentPath, dirent.name)`. */
  function FullPath(e: Dirent): string
  {
    PathJoin(e.parentPath, e.name)
  }

  /** The paths of the entries `keep` accepts, in listing order: a filter,
      a map to the full path and a second filter fused into one pass. */
  function KeptPaths(entries: seq<Dirent>, keep: Dirent -> bool): (r: seq<string>)
    ensures |r| <= |entries|
    decreases |entries|
  {
    if |entries| == 0 then []
    else
      var last := entries[|entries| - 1];
      KeptPaths(entries[..|entries| - 1], keep) + (if keep(last) then [FullPath(last)] else [])
  }

  /** A path is listed exactly when some accepted entry has it. */
  lemma {:induction false} KeptPathsMembership(entries: seq<Dirent>, keep: Dirent -> bool, p: string)
    ensures p in KeptPaths(entries, keep) <==> exists i :: 0 <= i < |entries| && keep(entries[i]) && FullPath(entries[i]) == p
    decreases |entries|
  {
    if |entries| > 0 {
      var init := entries[..|entries| - 1];
      KeptPathsMembership(init, keep, p);
      assert forall i :: 0 <= i < |init| ==> init[i] == entries[i];
      if exists i :: 0 <= i < |entries| && keep(entries[i]) && FullPath(entries[i]) == p {
        var i :| 0 <= i < |entries| && keep(entries[i]) && FullPath(entries[i]) == p;
        if i < |init| {
          assert keep(init[i]) && FullPath(init[i]) == p;
        }
      }
    }
  }

  /** Nothing accepted, nothing listed. */
  lemma {:induction false} KeptPathsNone(entries: seq<Dirent>, keep: Dirent -> bool)
    requires forall i :: 0 <= i < |entries| ==> !keep(entries[i])
    ensures KeptPaths(entries, keep) == []
    decreases |entries|
  {
    if |entries| > 0 {
      KeptPathsNone(entries[..|entries| - 1], keep);
    }
  }

  /** The listing is processed entry by entry: the paths of two listings one
      after the other are the paths of each, in the same order. */
  lemma {:induction false} KeptPathsConcat(a: seq<Dirent>, b: seq<Dirent>, keep: Dirent -> bool)
    ensures KeptPaths(a + b, keep) == KeptPaths(a, keep) + KeptPaths(b, keep)
    decreases |b|
  {
    if |b| == 0 {
      assert a + b == a;
    } else {
      var b0 := b[..|b| - 1];
      assert (a + b)[..|a + b| - 1] == a + b0;
      assert (a + b)[|a + b| - 1] == b[|b| - 1];
      KeptPathsConcat(a, b0, keep);
    }
  }

  /** The entries `getMdFiles` keeps: files (not directories) whose name ends
      in a markdown extension and whose full path contains neither `drafts`
      nor `build` anywhere, as a substring. */
  predicate Kept(e: Dirent)
  {
    !e.isDirectory && EndsWithSome(e.name, MarkdownExtensions)
    && !Includes(FullPath(e), IgnoreDirectory) && !Includes(FullPath(e), OutputDirectory)
  }

  function GetMdFiles(entries: seq<Dirent>): seq<string>
  {
    KeptPaths(entries, Kept)
  }

  /** The documents are exactly the full paths of the kept entries. */
  lemma {:induction false} GetMdFilesMembership(entries: seq<Dirent>, p: string)
    ensures p in GetMdFiles(entries) <==>
              exists i :: 0 <= i < |entries| && !entries[i].isDirectory
                          && EndsWithSome(entries[i].name, MarkdownExtensions)
                          && !Includes(FullPath(entries[i]), IgnoreDirectory)
                          && !Includes(FullPath(entries[i]), OutputDirectory)
                          && FullPath(entries[i]) == p
  {
    KeptPathsMembership(entries, Kept, p);
  }

  /** Listing order is kept. */
  lemma {:induction false} GetMdFilesOrder(a: seq<Dirent>, b: seq<Dirent>)
    ensures GetMdFiles(a + b) == GetMdFiles(a) + GetMdFiles(b)
  {
    KeptPathsConcat(a, b, Kept);
  }

  /** Joining a name onto a directory keeps any text in either part. */
  lemma {:induction false} FullPathIncludes(e: Dirent, d: string)
    requires Includes(e.parentPath, d) || Includes(e.name, d)
    ensures Includes(FullPath(e), d)
  {
    var a := e.parentPath;
    var b := e.name;
    if a == "" && b == "" {
    } else if a == "" {
    } else if b == "" {
    } else if a[|a| - 1] == '/' {
      IncludesConcat(a, b, d);
    } else {
      if Includes(a, d) {
        IncludesConcat(a, "/", d);
        IncludesConcat(a + "/", b, d);
      } else {
        IncludesConcat(a + "/", b, d);
      }
    }
  }

  /** The full path of an entry with a name ends in that name's last
      character. */
  lemma {:induction false} FullPathEnd(e: Dirent)
    requires e.name != ""
    ensures FullPath(e) != "" && FullPath(e)[|FullPath(e)| - 1] == e.name[|e.name| - 1]
  {
  }

  /** Every document path names a file: it ends in the `d` of `.md`, not in `/`. */
  lemma {:induction false} GetMdFilesAreFiles(entries: seq<Dirent>, p: string)
    requires p in GetMdFiles(entries)
    ensures p != "" && p[|p| - 1] == 'd'
  {
    GetMdFilesMembership(entries, p);
    var i :| 0 <= i < |entries| && EndsWithSome(entries[i].name, MarkdownExtensions) && FullPath(entries[i]) == p;
    var e := entries[i];
    SingleExtension(e.name);
    var n := |e.name|;
    assert e.name[n - 3..][2] == 'd';
    FullPathEnd(e);
  }

  /** Exclusion is by substring, not by path segment: a site kept under a
      directory whose name merely contains `build` (`/home/rebuild/site`, say)
      yields no documents at all. */
  lemma {:induction false} SiteUnderBuildNameEmpty(entries: seq<Dirent>)
    requires forall i :: 0 <= i < |entries| ==> Includes(entries[i].parentPath, OutputDirectory)
    ensures GetMdFiles(entries) == []
  {
    forall i | 0 <= i < |entries|
      ensures !Kept(entries[i])
    {
      FullPathIncludes(entries[i], OutputDirectory);
    }
    KeptPathsNone(entries, Kept);
  }

  /** A document whose own name contains `drafts` is dropped with the drafts. */
  lemma {:induction false} DraftsInNameExcluded(e: Dirent)
    requires Includes(e.name, IgnoreDirectory)
    ensures GetMdFiles([e]) == []
  {
    FullPathIncludes(e, IgnoreDirectory);
    assert [e][..0] == [];
  }

  /** The entries `getMdFilesFromDir` keeps: files whose name ends in `.md`
      and whose full path does not contain `draftDir`. */
  predicate LegacyKept(e: Dirent, draftDir: string)
  {
    !e.isDirectory && EndsWith(e.name, LegacyExtension) && !Includes(FullPath(e), draftDir)
  }

  function LegacyGetMdFiles(entries: seq<Dirent>, draftDir: string): seq<string>
  {
    KeptPaths(entries, e => LegacyKept(e, draftDir))
  }

  lemma {:induction false} LegacyGetMdFilesMembership(entries: seq<Dirent>, draftDir: string, p: string)
    ensures p in LegacyGetMdFiles(entries, draftDir) <==>
              exists i :: 0 <= i < |entries| && !entries[i].isDirectory
                          && EndsWith(entries[i].name, LegacyExtension)
                          && !Includes(FullPath(entries[i]), draftDir)
                          && FullPath(entries[i]) == p
  {
    KeptPathsMembership(entries, e => LegacyKept(e, draftDir), p);
  }

  lemma {:induction false} LegacyGetMdFilesOrder(a: seq<Dirent>, b: seq<Dirent>, draftDir: string)
    ensures LegacyGetMdFiles(a + b, draftDir) == LegacyGetMdFiles(a, draftDir) + LegacyGetMdFiles(b, draftDir)
  {
    KeptPathsConcat(a, b, e => LegacyKept(e, draftDir));
  }

  /** The recursive listing gives the parent directory without a trailing `/`,
      so a file directly in `<dir>drafts` has the path `<dir>drafts/<name>`,
      which contains the draft directory `<dir>drafts/`: it is excluded. */
  lemma {:induction false} LegacyDraftExcluded(dir: string, name: string)
    requires name != ""
    ensures !LegacyKept(Dirent(dir + IgnoreDirectory, name, false), dir + IgnoreDirectory + "/")
  {
    var parent := dir + IgnoreDirectory;
    assert parent[|parent| - 1] == 's';
    PathJoinPlain(parent, name);
    IncludesSelf(parent + "/");
    IncludesConcat(parent + "/", name, parent + "/");
  }
}
