/** The build of index.ts: where each page goes (`createArticles`, lines
    186-236), the homepage (`createHomepage`, lines 239-310) and the whole
    run (`generateStaticSite`, lines 316-327). */
module Site {
  import opened Wrappers
  import opened Errors
  import opened JsString
  import opened Paths
  import opened FrontMatter
  import opened Resolve
  import opened Templates
  import opened Discovery
  import opened FileStore
  import opened Parsing
  import opened YearIndex

  /** `INDEX_FILE`. */
  const IndexFile := "index.html"
  /** `SETTINGS.templateDirectory` and `SETTINGS.templates`. */
  const TemplateDirectory := "templates"
  const AboutTemplate := "about.html"
  const ArticleTemplate := "article.html"
  const HomepageTemplate := "homepage.html"

  /** A directory path that is non-empty and has no trailing `/`, as the
      target directory always is (`TargetPlain`). */
  predicate PlainDir(d: string)
  {
    d != "" && d[|d| - 1] != '/'
  }

  /** `TARGETDIR`: `SOURCEDIR/build`. */
  function TargetDir(sourceDir: string): string
  {
    PathJoin(sourceDir, OutputDirectory)
  }

  function TemplatePath(sourceDir: string, name: string): string
  {
    PathJoin(PathJoin(sourceDir, TemplateDirectory), name)
  }

  /** The directory a page is written to: `about` at the top of the site,
      every other article under `content`, named by its slug. */
  function OutputDir(target: string, stem: string): string
  {
    if stem == AboutStem then PathJoin(target, Slug(stem))
    else PathJoin(PathJoin(target, ContentDirectory), Slug(stem))
  }

  /** The file `writeIndexFile` writes in a directory. */
  function IndexPath(dir: string): string
  {
    PathJoin(dir, IndexFile)
  }

  lemma {:induction false} SlugPlain(stem: string)
    requires stem != "" && !('/' in stem)
    ensures Slug(stem) != "" && Slug(stem)[|Slug(stem)| - 1] != '/'
  {
    assert stem[|stem| - 1] in stem;
  }

  /** `about` goes to `<target>/about/index.html`, any other article to
      `<target>/content/<slug>/index.html`. */
  lemma {:induction false} OutputPathShape(target: string, stem: string)
    requires PlainDir(target) && stem != "" && !('/' in stem)
    ensures stem == AboutStem ==> IndexPath(OutputDir(target, stem)) == target + "/" + "about" + "/" + IndexFile
    ensures stem != AboutStem ==>
              IndexPath(OutputDir(target, stem)) == target + "/" + ContentDirectory + "/" + Slug(stem) + "/" + IndexFile
  {
    if stem == AboutStem {
      ReplaceAllCharAbsent(AboutStem, '_', '-');
      PathJoinPlain(target, "about");
      PathJoinPlain(target + "/" + "about", IndexFile);
    } else {
      SlugPlain(stem);
      PathJoinPlain(target, ContentDirectory);
      PathJoinPlain(target + "/" + ContentDirectory, Slug(stem));
      PathJoinPlain(target + "/" + ContentDirectory + "/" + Slug(stem), IndexFile);
    }
  }

  /** Articles with different slugs go to different files. */
  lemma {:induction false} ArticlePathsApart(target: string, s1: string, s2: string)
    requires PlainDir(target)
    requires s1 != "" && !('/' in s1) && s1 != AboutStem
    requires s2 != "" && !('/' in s2) && s2 != AboutStem
    requires Slug(s1) != Slug(s2)
    ensures IndexPath(OutputDir(target, s1)) != IndexPath(OutputDir(target, s2))
  {
    OutputPathShape(target, s1);
    OutputPathShape(target, s2);
    var p := target + "/" + ContentDirectory + "/";
    ConcatAssoc(p + Slug(s1), "/", IndexFile);
    ConcatAssoc(p + Slug(s2), "/", IndexFile);
    MiddleDiffers(p, Slug(s1), Slug(s2), "/" + IndexFile);
  }

  /** The `about` page and an article never share a file. */
  lemma {:induction false} AboutApart(target: string, stem: string)
    requires PlainDir(target) && stem != "" && !('/' in stem) && stem != AboutStem
    ensures IndexPath(OutputDir(target, AboutStem)) != IndexPath(OutputDir(target, stem))
  {
    OutputPathShape(target, AboutStem);
    OutputPathShape(target, stem);
    Regroup3(target + "/", "about", "/", IndexFile);
    Regroup5(target + "/", ContentDirectory, "/", Slug(stem), "/", IndexFile);
    ApartAfter(target + "/", "about" + "/" + IndexFile, ContentDirectory + "/" + Slug(stem) + "/" + IndexFile);
  }

  /** The homepage `<target>/index.html` is never the file of an article. */
  lemma {:induction false} HomepageApart(target: string, stem: string)
    requires PlainDir(target) && stem != "" && !('/' in stem)
    ensures IndexPath(target) != IndexPath(OutputDir(target, stem))
  {
    PathJoinPlain(target, IndexFile);
    OutputPathShape(target, stem);
    if stem == AboutStem {
      Regroup3(target + "/", "about", "/", IndexFile);
      ApartAfter(target + "/", IndexFile, "about" + "/" + IndexFile);
    } else {
      Regroup5(target + "/", ContentDirectory, "/", Slug(stem), "/", IndexFile);
      ApartAfter(target + "/", IndexFile, ContentDirectory + "/" + Slug(stem) + "/" + IndexFile);
    }
  }

  /** Whatever the source directory, with or without a trailing `/`, the
      target directory is `build` inside it and has no trailing `/`. */
  lemma {:induction false} TargetPlain(sourceDir: string)
    ensures TargetDir(sourceDir) == DirPrefix(sourceDir) + OutputDirectory && PlainDir(TargetDir(sourceDir))
  {
    PathJoinPrefix(sourceDir, OutputDirectory);
  }

  /** Every page is written inside the target directory. */
  lemma {:induction false} OutputInTarget(target: string, stem: string)
    requires PlainDir(target) && stem != "" && !('/' in stem)
    ensures Under(IndexPath(OutputDir(target, stem)), target)
    ensures Under(IndexPath(target), target)
  {
    OutputPathShape(target, stem);
    PathJoinPlain(target, IndexFile);
    UnderJoin(target, IndexFile);
    if stem == AboutStem {
      Regroup3(target + "/", "about", "/", IndexFile);
      UnderJoin(target, "about" + "/" + IndexFile);
    } else {
      Regroup5(target + "/", ContentDirectory, "/", Slug(stem), "/", IndexFile);
      UnderJoin(target, ContentDirectory + "/" + Slug(stem) + "/" + IndexFile);
    }
  }

  /** No template lies inside the target directory, so writing the site
      never changes a template. */
  lemma {:induction false} TemplateOutsideTarget(sourceDir: string, name: string)
    requires name != ""
    ensures !Under(TemplatePath(sourceDir, name), TargetDir(sourceDir))
  {
    var pre := DirPrefix(sourceDir);
    var p := TemplatePath(sourceDir, name);
    var dir := TargetDir(sourceDir);
    PathJoinPrefix(sourceDir, TemplateDirectory);
    PathJoinPlain(pre + TemplateDirectory, name);
    PathJoinPrefix(sourceDir, OutputDirectory);
    assert p == pre + TemplateDirectory + "/" + name;
    assert dir == pre + OutputDirectory;
    assert p[|pre|] == 't';
    assert dir[|pre|] == 'b';
    if |p| >= |dir| {
      assert p[..|dir|][|pre|] == 't';
    }
  }

  /** The stem of a markdown path never contains `/`. */
  lemma {:induction false} StemPlain(path: string)
    ensures !('/' in FileStem(path))
  {
    var b := Basename(path);
    var stem := FileStem(path);
    assert forall k :: 0 <= k < |stem| ==> stem[k] == b[k];
  }

  /** The template of a page: `about.html` for `about`, `article.html`
      for the others. */
  function TemplateFor(stem: string): string
  {
    if stem == AboutStem then AboutTemplate else ArticleTemplate
  }

  /** The file an article is written to. */
  function PagePath(sourceDir: string, a: Article): string
  {
    IndexPath(OutputDir(TargetDir(sourceDir), FileStem(a.path)))
  }

  /** One pass of `createArticles`: the fields, then the template read from
      disk and filled with them; the first error thrown ends the run. */
  function Page(files: map<string, string>, sourceDir: string, a: Article, parse: DateParser): Result<string, BuildError>
  {
    var stem := FileStem(a.path);
    var f :- ResolveFields(a.meta, stem, parse);
    var template :- ReadFile(files, TemplatePath(sourceDir, TemplateFor(stem)));
    Ok(CompilePage(template, a.html, f))
  }

  /** A template with the four placeholders, in order, becomes the page with
      the article's body, title and dates in their places, provided no
      placeholder occurs earlier in the text as filled so far. */
  lemma {:induction false} PageFromTemplate(files: map<string, string>, sourceDir: string, a: Article, parse: DateParser,
                                            pa: string, pb: string, pc: string, pd: string, pe: string)
    requires ResolveFields(a.meta, FileStem(a.path), parse).Ok?
    requires files.Keys >= {TemplatePath(sourceDir, TemplateFor(FileStem(a.path)))}
    requires files[TemplatePath(sourceDir, TemplateFor(FileStem(a.path)))]
             == pa + ContentTag + pb + TitleTag + pc + PublishedTag + pd + LastModifiedTag + pe
    requires var f := ResolveFields(a.meta, FileStem(a.path), parse).value;
             TagFirstAfter(pa, ContentTag) && TagFirstAfter(pa + a.html + pb, TitleTag)
             && TagFirstAfter(pa + a.html + pb + f.title + pc, PublishedTag)
             && TagFirstAfter(pa + a.html + pb + f.title + pc + f.published + pd, LastModifiedTag)
    ensures var f := ResolveFields(a.meta, FileStem(a.path), parse).value;
            Page(files, sourceDir, a, parse) == Ok(pa + a.html + pb + f.title + pc + f.published + pd + f.lastModified + pe)
  {
    var f := ResolveFields(a.meta, FileStem(a.path), parse).value;
    PageFilled(pa, pb, pc, pd, pe, a.html, f);
  }

  /** The page does not depend on anything inside the target directory. */
  lemma {:induction false} PageOutside(f1: map<string, string>, f2: map<string, string>, sourceDir: string, a: Article, parse: DateParser)
    requires SameOutside(f1, f2, TargetDir(sourceDir))
    ensures Page(f1, sourceDir, a, parse) == Page(f2, sourceDir, a, parse)
  {
    TemplateOutsideTarget(sourceDir, TemplateFor(FileStem(a.path)));
  }

  /** `createArticles`' pass for one article, as the run takes it. */
  function PageStep(sourceDir: string, parse: DateParser): (map<string, string>, Article) -> Result<string, BuildError>
  {
    (files: map<string, string>, a: Article) => Page(files, sourceDir, a, parse)
  }

  function PathStep(sourceDir: string): Article -> string
  {
    (a: Article) => PagePath(sourceDir, a)
  }

  /** `createArticles` over all articles: each page made from the files as
      they are when its turn comes; the first error thrown ends the run. */
  function ArticlesRun(files: map<string, string>, sourceDir: string, arts: seq<Article>, parse: DateParser): Outcome
  {
    Run(files, arts, PageStep(sourceDir, parse), PathStep(sourceDir))
  }

  /** The names the articles' pages are written under, as the run needs them. */
  predicate PlainStems(arts: seq<Article>)
  {
    forall j :: 0 <= j < |arts| ==> FileStem(arts[j].path) != ""
  }

  lemma {:induction false} PagePathInTarget(sourceDir: string, a: Article)
    requires FileStem(a.path) != ""
    ensures Under(PagePath(sourceDir, a), TargetDir(sourceDir))
  {
    TargetPlain(sourceDir);
    StemPlain(a.path);
    OutputInTarget(TargetDir(sourceDir), FileStem(a.path));
  }

  /** Every page is written inside the target directory and made from files
      outside it. */
  lemma {:induction false} ArticlesConfined(sourceDir: string, arts: seq<Article>, parse: DateParser)
    requires PlainStems(arts)
    ensures Confined(arts, PageStep(sourceDir, parse), PathStep(sourceDir), TargetDir(sourceDir))
  {
    var page := PageStep(sourceDir, parse);
    var dir := TargetDir(sourceDir);
    forall j | 0 <= j < |arts|
      ensures Under(PathStep(sourceDir)(arts[j]), dir) && Insensitive(page, dir, arts[j])
    {
      PagePathInTarget(sourceDir, arts[j]);
      forall f1, f2 | SameOutside(f1, f2, dir)
        ensures page(f1, arts[j]) == page(f2, arts[j])
      {
        PageOutside(f1, f2, sourceDir, arts[j], parse);
      }
    }
  }

  /** The run writes only inside the target directory. */
  lemma {:induction false} ArticlesRunOutside(files: map<string, string>, sourceDir: string, arts: seq<Article>, parse: DateParser)
    requires PlainStems(arts)
    ensures SameOutside(ArticlesRun(files, sourceDir, arts, parse).files, files, TargetDir(sourceDir))
  {
    ArticlesConfined(sourceDir, arts, parse);
    RunOutside(files, arts, PageStep(sourceDir, parse), PathStep(sourceDir), TargetDir(sourceDir));
  }

  /** The run ends without an error exactly when every article's page can
      be made from the files the run started with. */
  lemma {:induction false} ArticlesRunOk(files: map<string, string>, sourceDir: string, arts: seq<Article>, parse: DateParser)
    requires PlainStems(arts)
    ensures ArticlesRun(files, sourceDir, arts, parse).failure.None? <==>
              forall j :: 0 <= j < |arts| ==> Page(files, sourceDir, arts[j], parse).Ok?
  {
    ArticlesConfined(sourceDir, arts, parse);
    RunOk(files, arts, PageStep(sourceDir, parse), PathStep(sourceDir), TargetDir(sourceDir));
  }

  /** The error a run ends with is that of the first article, in order,
      whose page cannot be made. */
  lemma {:induction false} ArticlesRunFirstError(files: map<string, string>, sourceDir: string, arts: seq<Article>, parse: DateParser, i: int)
    requires PlainStems(arts)
    requires 0 <= i < |arts|
    requires forall j :: 0 <= j < i ==> Page(files, sourceDir, arts[j], parse).Ok?
    requires Page(files, sourceDir, arts[i], parse).Err?
    ensures ArticlesRun(files, sourceDir, arts, parse).failure == Some(Page(files, sourceDir, arts[i], parse).error)
  {
    ArticlesConfined(sourceDir, arts, parse);
    RunFirstError(files, arts, PageStep(sourceDir, parse), PathStep(sourceDir), TargetDir(sourceDir), i);
  }

  /** Without an error, each article's file holds its page, provided no two
      articles share a file (which `SlugCollision` shows can happen); every
      other file is as before. */
  lemma {:induction false} ArticlesRunWrites(files: map<string, string>, sourceDir: string, arts: seq<Article>, parse: DateParser)
    requires PlainStems(arts)
    requires forall i, j :: 0 <= i < j < |arts| ==> PagePath(sourceDir, arts[i]) != PagePath(sourceDir, arts[j])
    requires ArticlesRun(files, sourceDir, arts, parse).failure.None?
    ensures forall j :: 0 <= j < |arts| ==>
              PagePath(sourceDir, arts[j]) in ArticlesRun(files, sourceDir, arts, parse).files
              && Page(files, sourceDir, arts[j], parse).Ok?
              && ArticlesRun(files, sourceDir, arts, parse).files[PagePath(sourceDir, arts[j])]
                 == Page(files, sourceDir, arts[j], parse).value
    ensures forall p :: (forall j :: 0 <= j < |arts| ==> PagePath(sourceDir, arts[j]) != p) ==>
              (p in ArticlesRun(files, sourceDir, arts, parse).files <==> p in files)
              && (p in files ==> ArticlesRun(files, sourceDir, arts, parse).files[p] == files[p])
  {
    ArticlesConfined(sourceDir, arts, parse);
    RunWrites(files, arts, PageStep(sourceDir, parse), PathStep(sourceDir), TargetDir(sourceDir));
  }

  /** `createArticles`: the pass for each article in turn, reading its
      template from the disk as it is then and writing the filled page. */
  method CreateArticles(disk: Disk, sourceDir: string, arts: seq<Article>, parse: DateParser) returns (failure: Option<BuildError>)
    modifies disk
    ensures Outcome(disk.files, failure) == ArticlesRun(old(disk.files), sourceDir, arts, parse)
  {
    ghost var start := disk.files;
    var page := PageStep(sourceDir, parse);
    var path := PathStep(sourceDir);
    failure := None;
    var n := 0;
    while n < |arts|
      invariant 0 <= n <= |arts|
      invariant Outcome(disk.files, None) == Run(start, arts[..n], page, path)
    {
      var a := arts[n];
      RunSnoc(start, arts, n, page, path);
      var stem := FileStem(a.path);
      var fields := ResolveFields(a.meta, stem, parse);
      if fields.Err? {
        failure := Some(fields.error);
        RunPrefixFails(start, arts, n + 1, page, path);
        return;
      }
      var template := disk.Read(TemplatePath(sourceDir, TemplateFor(stem)));
      if template.Err? {
        failure := Some(template.error);
        RunPrefixFails(start, arts, n + 1, page, path);
        return;
      }
      disk.Write(IndexPath(OutputDir(TargetDir(sourceDir), stem)), CompilePage(template.value, a.html, fields.value));
      n := n + 1;
    }
    assert arts[..n] == arts;
  }

  /** The homepage: the year index of the articles put into the homepage
      template. */
  function HomepagePage(files: map<string, string>, sourceDir: string, arts: seq<Article>, parse: DateParser): Result<string, BuildError>
  {
    var markup :- HomepageMarkup(arts, parse, Current, ContentDirectory);
    var template :- ReadFile(files, TemplatePath(sourceDir, HomepageTemplate));
    Ok(CompileHomepage(template, markup))
  }

  /** The file the homepage is written to: `<target>/index.html`. */
  function HomepagePath(sourceDir: string): string
  {
    IndexPath(TargetDir(sourceDir))
  }

  /** `createHomepage` after the articles: nothing once an error was thrown. */
  function HomepageRun(o: Outcome, sourceDir: string, arts: seq<Article>, parse: DateParser): Outcome
  {
    if o.failure.Some? then o
    else match HomepagePage(o.files, sourceDir, arts, parse)
      case Err(e) => Outcome(o.files, Some(e))
      case Ok(page) => Outcome(o.files[HomepagePath(sourceDir) := page], None)
  }

  /** `createHomepage`: the year index first, then the template read from
      disk, then the write. */
  method CreateHomepage(disk: Disk, sourceDir: string, arts: seq<Article>, parse: DateParser) returns (failure: Option<BuildError>)
    modifies disk
    ensures Outcome(disk.files, failure) == HomepageRun(Outcome(old(disk.files), None), sourceDir, arts, parse)
  {
    var markup := BuildIndex(arts, parse, Current, ContentDirectory);
    if markup.Err? {
      return Some(markup.error);
    }
    var template := disk.Read(TemplatePath(sourceDir, HomepageTemplate));
    if template.Err? {
      return Some(template.error);
    }
    disk.Write(IndexPath(TargetDir(sourceDir)), CompileHomepage(template.value, markup.value));
    failure := None;
  }

  /** The homepage does not depend on anything inside the target directory. */
  lemma {:induction false} HomepageOutside(f1: map<string, string>, f2: map<string, string>, sourceDir: string, arts: seq<Article>, parse: DateParser)
    requires SameOutside(f1, f2, TargetDir(sourceDir))
    ensures HomepagePage(f1, sourceDir, arts, parse) == HomepagePage(f2, sourceDir, arts, parse)
  {
    TemplateOutsideTarget(sourceDir, HomepageTemplate);
  }

  /** The homepage lists every article but `about`: its bullet, holding the
      link to the article and its title, is in the page, provided the
      template's `{{ articles }}` is its first. */
  lemma {:induction false} HomepageListsArticle(files: map<string, string>, sourceDir: string, arts: seq<Article>, parse: DateParser,
                                                j: int, pa: string, pb: string)
    requires 0 <= j < |arts| && FileStem(arts[j].path) != AboutStem
    requires TemplatePath(sourceDir, HomepageTemplate) in files
    requires files[TemplatePath(sourceDir, HomepageTemplate)] == pa + ArticlesTag + pb && TagFirstAfter(pa, ArticlesTag)
    requires HomepagePage(files, sourceDir, arts, parse).Ok?
    ensures var stem := FileStem(arts[j].path);
            Includes(HomepagePage(files, sourceDir, arts, parse).value, Link(ContentDirectory, Slug(stem)))
            && Includes(HomepagePage(files, sourceDir, arts, parse).value, Title(arts[j].meta, stem))
  {
    var a := arts[j];
    var stem := FileStem(a.path);
    var step := (x: Article) => ItemOf(x, parse, Current, ContentDirectory);
    var items := Items(arts, parse, Current, ContentDirectory).value;
    CollectOk(arts, step);
    ItemOfCases(a, parse, Current, ContentDirectory);
    var it := ItemOf(a, parse, Current, ContentDirectory).value.value;
    var bullet := Bullet(Current, TagsText(a.meta), ContentDirectory, Slug(stem), Title(a.meta, stem));
    assert it.bullet == bullet;
    ItemsMembers(arts, parse, Current, ContentDirectory, it);
    IndexShowsEveryEntry(items, it);
    var markup := YearsMarkup(Layout(items));
    HomepageFilled(pa, pb, markup);
    var page := HomepagePage(files, sourceDir, arts, parse).value;
    assert page == pa + markup + pb;
    BulletShows(Current, TagsText(a.meta), ContentDirectory, Slug(stem), Title(a.meta, stem));
    IncludesTrans(markup, bullet, Link(ContentDirectory, Slug(stem)));
    IncludesTrans(markup, bullet, Title(a.meta, stem));
    IncludesConcat(pa, markup, Link(ContentDirectory, Slug(stem)));
    IncludesConcat(pa + markup, pb, Link(ContentDirectory, Slug(stem)));
    IncludesConcat(pa, markup, Title(a.meta, stem));
    IncludesConcat(pa + markup, pb, Title(a.meta, stem));
  }

  /** The homepage's link to an article, taken relative to the homepage's
      directory, names the file the article's page is written to. */
  lemma {:induction false} LinkReachesPage(sourceDir: string, a: Article)
    requires FileStem(a.path) != "" && FileStem(a.path) != AboutStem
    ensures PagePath(sourceDir, a) == TargetDir(sourceDir) + "/" + Link(ContentDirectory, Slug(FileStem(a.path))) + IndexFile
  {
    var stem := FileStem(a.path);
    var target := TargetDir(sourceDir);
    TargetPlain(sourceDir);
    StemPlain(a.path);
    OutputPathShape(target, stem);
    Regroup5(target + "/", ContentDirectory, "/", Slug(stem), "/", IndexFile);
    ConcatAssoc(target + "/", Link(ContentDirectory, Slug(stem)), IndexFile);
  }

  /** `generateStaticSite`: clear the target directory, list and parse the
      documents, write the articles, then the homepage. `entries` is the
      recursive listing of `<sourceDir>/content`. */
  function Build(files: map<string, string>, sourceDir: string, entries: seq<Dirent>, parse: DateParser, render: Renderer): Outcome
  {
    var cleared := RemoveTree(files, TargetDir(sourceDir));
    match Parsed(cleared, GetMdFiles(entries), TsSplit, render)
    case Err(e) => Outcome(cleared, Some(e))
    case Ok(arts) => HomepageRun(ArticlesRun(cleared, sourceDir, arts, parse), sourceDir, arts, parse)
  }

  method GenerateStaticSite(disk: Disk, sourceDir: string, entries: seq<Dirent>, parse: DateParser, render: Renderer)
    returns (failure: Option<BuildError>)
    modifies disk
    ensures Outcome(disk.files, failure) == Build(old(disk.files), sourceDir, entries, parse, render)
  {
    disk.Remove(TargetDir(sourceDir));
    var paths := GetMdFiles(entries);
    var arts := ParseMdFiles(disk, paths, TsSplit, render);
    if arts.Err? {
      return Some(arts.error);
    }
    failure := CreateArticles(disk, sourceDir, arts.value, parse);
    if failure.Some? {
      return;
    }
    failure := CreateHomepage(disk, sourceDir, arts.value, parse);
  }

  /** The documents listed for the build all have non-empty stems. */
  lemma {:induction false} ParsedStems(files: map<string, string>, entries: seq<Dirent>, render: Renderer)
    requires Parsed(files, GetMdFiles(entries), TsSplit, render).Ok?
    ensures PlainStems(Parsed(files, GetMdFiles(entries), TsSplit, render).value)
  {
    var paths := GetMdFiles(entries);
    var arts := Parsed(files, paths, TsSplit, render).value;
    ParsedOk(files, paths, TsSplit, render);
    forall j | 0 <= j < |arts|
      ensures FileStem(arts[j].path) != ""
    {
      ParseOneCases(files, paths[j], TsSplit, render);
      assert arts[j].path == paths[j];
      GetMdFilesAreFiles(entries, paths[j]);
      StemNonEmpty(paths[j]);
    }
  }

  lemma {:induction false} HomepageRunOutside(o: Outcome, files: map<string, string>, sourceDir: string, arts: seq<Article>, parse: DateParser)
    requires SameOutside(o.files, files, TargetDir(sourceDir))
    ensures SameOutside(HomepageRun(o, sourceDir, arts, parse).files, files, TargetDir(sourceDir))
  {
    var target := TargetDir(sourceDir);
    TargetPlain(sourceDir);
    OutputInTarget(target, AboutStem);
    if o.failure.None? && HomepagePage(o.files, sourceDir, arts, parse).Ok? {
      SameOutsideWrite(o.files, HomepagePath(sourceDir), HomepagePage(o.files, sourceDir, arts, parse).value, target);
      SameOutsideTrans(HomepageRun(o, sourceDir, arts, parse).files, o.files, files, target);
    }
  }

  /** The build changes nothing outside the target directory: the content,
      the templates and the assets stay as they were. */
  lemma {:induction false} BuildOutside(files: map<string, string>, sourceDir: string, entries: seq<Dirent>, parse: DateParser, render: Renderer)
    ensures SameOutside(Build(files, sourceDir, entries, parse, render).files, files, TargetDir(sourceDir))
  {
    var target := TargetDir(sourceDir);
    var cleared := RemoveTree(files, target);
    var parsed := Parsed(cleared, GetMdFiles(entries), TsSplit, render);
    if parsed.Ok? {
      var arts := parsed.value;
      ParsedStems(cleared, entries, render);
      var o := ArticlesRun(cleared, sourceDir, arts, parse);
      ArticlesRunOutside(cleared, sourceDir, arts, parse);
      SameOutsideTrans(o.files, cleared, files, target);
      HomepageRunOutside(o, files, sourceDir, arts, parse);
    }
  }

  /** The build ends without an error exactly when every document parses,
      every article's page can be made and so can the homepage, each from
      the files the build started with. */
  lemma {:induction false} BuildOk(files: map<string, string>, sourceDir: string, entries: seq<Dirent>, parse: DateParser, render: Renderer)
    ensures var parsed := Parsed(RemoveTree(files, TargetDir(sourceDir)), GetMdFiles(entries), TsSplit, render);
            Build(files, sourceDir, entries, parse, render).failure.None? <==>
              parsed.Ok?
              && (forall j :: 0 <= j < |parsed.value| ==> Page(files, sourceDir, parsed.value[j], parse).Ok?)
              && HomepagePage(files, sourceDir, parsed.value, parse).Ok?
  {
    var target := TargetDir(sourceDir);
    var cleared := RemoveTree(files, target);
    var parsed := Parsed(cleared, GetMdFiles(entries), TsSplit, render);
    if parsed.Ok? {
      var arts := parsed.value;
      ParsedStems(cleared, entries, render);
      var o := ArticlesRun(cleared, sourceDir, arts, parse);
      ArticlesRunOk(cleared, sourceDir, arts, parse);
      ArticlesRunOutside(cleared, sourceDir, arts, parse);
      SameOutsideTrans(o.files, cleared, files, target);
      HomepageOutside(o.files, files, sourceDir, arts, parse);
      forall j | 0 <= j < |arts|
        ensures Page(cleared, sourceDir, arts[j], parse) == Page(files, sourceDir, arts[j], parse)
      {
        PageOutside(cleared, files, sourceDir, arts[j], parse);
      }
    }
  }

  /** What the build leaves of a file that is neither a page nor the
      homepage, whether or not the build fails: inside the target directory
      the old build is gone, and outside it the file is as it was. */
  lemma {:induction false} BuildClears(files: map<string, string>, sourceDir: string, entries: seq<Dirent>, parse: DateParser, render: Renderer, p: string)
    requires p != HomepagePath(sourceDir)
    requires var parsed := Parsed(RemoveTree(files, TargetDir(sourceDir)), GetMdFiles(entries), TsSplit, render);
             parsed.Ok? ==> forall j :: 0 <= j < |parsed.value| ==> PagePath(sourceDir, parsed.value[j]) != p
    ensures var out := Build(files, sourceDir, entries, parse, render).files;
            if Under(p, TargetDir(sourceDir)) then p !in out
            else (p in out <==> p in files) && (p in out ==> out[p] == files[p])
  {
    var cleared := RemoveTree(files, TargetDir(sourceDir));
    var parsed := Parsed(cleared, GetMdFiles(entries), TsSplit, render);
    var out := Build(files, sourceDir, entries, parse, render);
    if parsed.Ok? {
      var arts := parsed.value;
      var o := ArticlesRun(cleared, sourceDir, arts, parse);
      assert forall j :: 0 <= j < |arts| ==> PathStep(sourceDir)(arts[j]) != p;
      RunKeeps(cleared, arts, PageStep(sourceDir, parse), PathStep(sourceDir), p);
      HomepageRunKeeps(o, sourceDir, arts, parse, p);
      assert out == HomepageRun(o, sourceDir, arts, parse);
    } else {
      assert out.files == cleared;
    }
  }

  /** Writing the homepage leaves every other file as it was. */
  lemma {:induction false} HomepageRunKeeps(o: Outcome, sourceDir: string, arts: seq<Article>, parse: DateParser, p: string)
    requires p != HomepagePath(sourceDir)
    ensures p in HomepageRun(o, sourceDir, arts, parse).files <==> p in o.files
    ensures p in o.files ==> HomepageRun(o, sourceDir, arts, parse).files[p] == o.files[p]
  {
  }

  /** A file inside the target directory that is neither the homepage nor
      the page of one of `arts`. */
  predicate Leftover(p: string, sourceDir: string, arts: seq<Article>)
  {
    Under(p, TargetDir(sourceDir)) && p != HomepagePath(sourceDir)
    && forall j :: 0 <= j < |arts| ==> PagePath(sourceDir, arts[j]) != p
  }

  /** Nothing but the pages and the homepage is left inside the target
      directory after a build. */
  lemma {:induction false} TargetClears(files: map<string, string>, sourceDir: string, entries: seq<Dirent>, parse: DateParser, render: Renderer)
    ensures var parsed := Parsed(RemoveTree(files, TargetDir(sourceDir)), GetMdFiles(entries), TsSplit, render);
            var out := Build(files, sourceDir, entries, parse, render).files;
            parsed.Ok? ==> forall p :: Leftover(p, sourceDir, parsed.value) ==> p !in out
  {
    var parsed := Parsed(RemoveTree(files, TargetDir(sourceDir)), GetMdFiles(entries), TsSplit, render);
    forall p | parsed.Ok? && Leftover(p, sourceDir, parsed.value)
      ensures p !in Build(files, sourceDir, entries, parse, render).files
    {
      BuildClears(files, sourceDir, entries, parse, render, p);
    }
  }

  /** A build without an error leaves each article's page in its file, when
      no two articles share a file, and the homepage in `<target>/index.html`;
      nothing else is left inside the target directory. */
  lemma {:induction false} BuildWrites(files: map<string, string>, sourceDir: string, entries: seq<Dirent>, parse: DateParser, render: Renderer)
    requires Build(files, sourceDir, entries, parse, render).failure.None?
    requires var parsed := Parsed(RemoveTree(files, TargetDir(sourceDir)), GetMdFiles(entries), TsSplit, render);
             parsed.Ok? ==> forall i, j :: 0 <= i < j < |parsed.value| ==>
               PagePath(sourceDir, parsed.value[i]) != PagePath(sourceDir, parsed.value[j])
    ensures var parsed := Parsed(RemoveTree(files, TargetDir(sourceDir)), GetMdFiles(entries), TsSplit, render);
            var out := Build(files, sourceDir, entries, parse, render).files;
            parsed.Ok?
            && HomepagePath(sourceDir) in out && HomepagePage(files, sourceDir, parsed.value, parse).Ok?
            && out[HomepagePath(sourceDir)] == HomepagePage(files, sourceDir, parsed.value, parse).value
            && forall j :: 0 <= j < |parsed.value| ==>
                 PagePath(sourceDir, parsed.value[j]) in out && Page(files, sourceDir, parsed.value[j], parse).Ok?
                 && out[PagePath(sourceDir, parsed.value[j])] == Page(files, sourceDir, parsed.value[j], parse).value
    ensures var parsed := Parsed(RemoveTree(files, TargetDir(sourceDir)), GetMdFiles(entries), TsSplit, render);
            var out := Build(files, sourceDir, entries, parse, render).files;
            forall p :: Leftover(p, sourceDir, parsed.value) ==> p !in out
  {
    TargetClears(files, sourceDir, entries, parse, render);
    var target := TargetDir(sourceDir);
    var cleared := RemoveTree(files, target);
    var parsed := Parsed(cleared, GetMdFiles(entries), TsSplit, render);
    var arts := parsed.value;
    ParsedStems(cleared, entries, render);
    var o := ArticlesRun(cleared, sourceDir, arts, parse);
    ArticlesRunWrites(cleared, sourceDir, arts, parse);
    ArticlesRunOutside(cleared, sourceDir, arts, parse);
    SameOutsideTrans(o.files, cleared, files, target);
    HomepageOutside(o.files, files, sourceDir, arts, parse);
    TargetPlain(sourceDir);
    forall j | 0 <= j < |arts|
      ensures Page(cleared, sourceDir, arts[j], parse) == Page(files, sourceDir, arts[j], parse)
      ensures PagePath(sourceDir, arts[j]) != HomepagePath(sourceDir)
    {
      PageOutside(cleared, files, sourceDir, arts[j], parse);
      StemPlain(arts[j].path);
      HomepageApart(target, FileStem(arts[j].path));
    }
  }
}
