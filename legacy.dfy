/** The earlier generator, index.js: the same pipeline with string-built
    paths. Documents are parsed before the old build is removed, every page
    (`about` included) is filled from the article template, a page's file
    is found by rewriting the document's path (`sourcePathToBuildPath`,
    lines 129-131; `createArticles`, lines 137-165), and the homepage is
    `addArticles` (lines 174-220) written by `createHomepage` (lines
    223-234). */
module Legacy {
  import opened Wrappers
  import opened Errors
  import opened JsString
  import opened Paths
  import opened FrontMatter
  import opened Resolve
  import opened Templates
  import opened Discovery
  import opened FileStore
  import opened Parsing
  import opened YearIndex

  /** The constants of `generateStaticSite` (lines 240-256). */
  const ContentSuffix := "content"
  const DraftSuffix := "drafts"
  const BuildSuffix := "build"
  const ArticleTemplatePath := "templates/article-template.html"
  const HomepageTemplatePath := "templates/homepage-template.html"
  const AboutTemplatePath := "templates/about-template.html"
  const IndexFile := "index.html"
  /** The text `createArticles` rewrites in a document's path. */
  const ContentItem := "content/"

  /** `sourcePathToBuildPath`: `buildDir/` inserted before the first
      occurrence of `itemInSource`, wherever in the path that is. */
  function SourcePathToBuildPath(sourcePath: string, buildDir: string, itemInSource: string): string
  {
    ReplaceFirst(sourcePath, itemInSource, buildDir + "/" + itemInSource)
  }

  /** `pathInBuild`: for `about`, the first `content/` of the rewritten path
      is then dropped. */
  function PathInBuild(mdPath: string, stem: string): string
  {
    var inBuild := SourcePathToBuildPath(mdPath, BuildSuffix, ContentItem);
    if stem == AboutStem then ReplaceFirst(inBuild, ContentItem, "") else inBuild
  }

  /** `fileOutputDir`: the directory of the rewritten path, then the slug. */
  function OutputDir(mdPath: string): (r: string)
    ensures |r| > 0 && r[|r| - 1] == '/'
  {
    var stem := FileStem(mdPath);
    Dirname(PathInBuild(mdPath, stem)) + "/" + Slug(stem) + "/"
  }

  /** The file a page is written to. */
  function PagePath(a: Article): string
  {
    OutputDir(a.path) + IndexFile
  }

  /** One pass of `createArticles`: the article template, whatever the
      article, filled with the body, title and dates. */
  function Page(template: string, a: Article, parse: DateParser): Result<string, BuildError>
  {
    var f :- ResolveFields(a.meta, FileStem(a.path), parse);
    Ok(CompilePage(template, a.html, f))
  }

  /** The pass as the run takes it: the template was read before the loop,
      so the page does not depend on the files. */
  function PageStep(template: string, parse: DateParser): (map<string, string>, Article) -> Result<string, BuildError>
  {
    (files: map<string, string>, a: Article) => Page(template, a, parse)
  }

  function PathStep(): Article -> string
  {
    (a: Article) => PagePath(a)
  }

  /** `createArticles` over all articles; the first error thrown ends it. */
  function ArticlesRun(files: map<string, string>, template: string, arts: seq<Article>, parse: DateParser): Outcome
  {
    Run(files, arts, PageStep(template, parse), PathStep())
  }

  /** `addArticles`: the year index with the compact bullets, into the
      homepage template. */
  function AddArticles(template: string, contentDir: string, arts: seq<Article>, parse: DateParser): Result<string, BuildError>
  {
    var markup :- HomepageMarkup(arts, parse, Legacy, contentDir);
    Ok(CompileHomepage(template, markup))
  }

  /** Where `createHomepage` writes. */
  function HomepagePath(sourceDir: string): string
  {
    SourcePathToBuildPath(sourceDir + IndexFile, BuildSuffix, IndexFile)
  }

  /** The homepage template is read after the articles are written; then
      `createHomepage`. */
  function HomepageRun(o: Outcome, sourceDir: string, arts: seq<Article>, parse: DateParser): Outcome
  {
    if o.failure.Some? then o
    else match ReadFile(o.files, sourceDir + HomepageTemplatePath)
      case Err(e) => Outcome(o.files, Some(e))
      case Ok(template) =>
        match AddArticles(template, ContentSuffix, arts, parse)
        case Err(e) => Outcome(o.files, Some(e))
        case Ok(page) => Outcome(o.files[HomepagePath(sourceDir) := page], None)
  }

  /** After the old build is removed: both article templates are read (the
      `about` one is never used), then the articles and the homepage. */
  function AfterParse(cleared: map<string, string>, sourceDir: string, arts: seq<Article>, parse: DateParser): Outcome
  {
    match ReadFile(cleared, sourceDir + ArticleTemplatePath)
    case Err(e) => Outcome(cleared, Some(e))
    case Ok(template) =>
      match ReadFile(cleared, sourceDir + AboutTemplatePath)
      case Err(e) => Outcome(cleared, Some(e))
      case Ok(_) => HomepageRun(ArticlesRun(cleared, template, arts, parse), sourceDir, arts, parse)
  }

  /** `generateStaticSite` of index.js. `entries` is the recursive listing
      of `<sourceDir>content/`; the documents are parsed before
      `<sourceDir>build/` is removed. */
  function Build(files: map<string, string>, sourceDir: string, entries: seq<Dirent>, parse: DateParser, render: Renderer): Outcome
  {
    var contentDir := sourceDir + ContentSuffix + "/";
    var paths := LegacyGetMdFiles(entries, contentDir + DraftSuffix + "/");
    match Parsed(files, paths, JsSplit, render)
    case Err(e) => Outcome(files, Some(e))
    case Ok(arts) => AfterParse(RemoveTree(files, sourceDir + BuildSuffix), sourceDir, arts, parse)
  }

  /** A document under `<pre>content/` moves to `<pre>build/content/`, when
      `pre` itself holds no `content/`. */
  lemma {:induction false} BuildPathOfDocument(pre: string, rest: string)
    requires !Includes(pre, ContentItem)
    ensures SourcePathToBuildPath(pre + ContentItem + rest, BuildSuffix, ContentItem)
            == pre + (BuildSuffix + "/") + ContentItem + rest
  {
    NoOccurrenceBefore(pre, ContentItem, rest);
    ReplaceAt(pre, ContentItem, rest, BuildSuffix + "/" + ContentItem);
    ConcatAssoc(pre, BuildSuffix + "/", ContentItem);
  }

  /** When the source directory's own path holds `content/`, `build/` is put
      inside that earlier directory: the page lands outside
      `<sourceDir>build`. */
  lemma {:induction false} BuildPathMisplaced(pre: string, mid: string, rest: string)
    requires !Includes(pre, ContentItem)
    ensures var sourceDir := pre + ContentItem + mid;
            SourcePathToBuildPath(sourceDir + ContentItem + rest, BuildSuffix, ContentItem)
            == pre + (BuildSuffix + "/") + ContentItem + (mid + ContentItem + rest)
            && !Under(SourcePathToBuildPath(sourceDir + ContentItem + rest, BuildSuffix, ContentItem), sourceDir + BuildSuffix)
  {
    var sourceDir := pre + ContentItem + mid;
    Regroup3(pre, ContentItem, mid, ContentItem);
    Regroup(pre, ContentItem, mid, ContentItem, rest, "", "", "");
    assert sourceDir + ContentItem + rest == pre + ContentItem + (mid + ContentItem + rest);
    BuildPathOfDocument(pre, mid + ContentItem + rest);
    var p := pre + (BuildSuffix + "/") + ContentItem + (mid + ContentItem + rest);
    var dir := sourceDir + BuildSuffix;
    assert p[|pre|] == 'b';
    assert dir[|pre|] == 'c';
    if |p| > |dir| {
      assert p[..|dir|][|pre|] == 'b';
    }
  }

  /** The directory of a file path: all but the slash and the file name. */
  lemma {:induction false} DirnameOfSlashed(d: string, name: string)
    requires |d| > 1 && d[|d| - 1] == '/' && !('/' in name)
    ensures Dirname(d + name) == d[..|d| - 1] && d[..|d| - 1] + "/" == d
  {
    assert d[..|d| - 1] + "/" == d;
    DirnameOfFile(d[..|d| - 1], name);
  }

  /** The stem of a `.md` document in a directory written with its
      trailing slash. */
  lemma {:induction false} StemOfDocument(d: string, stem: string)
    requires |d| > 0 && d[|d| - 1] == '/' && stem != "" && !('/' in stem)
    ensures FileStem(d + stem + ".md") == stem
  {
    var e := d[..|d| - 1];
    assert e + "/" == d;
    Regroup3(e, "/", stem, ".md");
    FileStemOfMarkdown(e, stem);
  }

  lemma {:induction false} MarkdownName(stem: string)
    requires !('/' in stem)
    ensures !('/' in stem + ".md")
  {
    assert forall k :: 0 <= k < |stem| ==> (stem + ".md")[k] == stem[k];
  }

  /** The rewritten path of an article other than `about`. */
  lemma {:induction false} ArticleInBuild(pre: string, sub: string, stem: string)
    requires !Includes(pre, ContentItem) && stem != AboutStem
    ensures PathInBuild(pre + ContentItem + sub + stem + ".md", stem)
            == pre + (BuildSuffix + "/") + ContentItem + sub + (stem + ".md")
  {
    var rest := sub + (stem + ".md");
    ConcatAssoc(pre + ContentItem + sub, stem, ".md");
    ConcatAssoc(pre + ContentItem, sub, stem + ".md");
    BuildPathOfDocument(pre, rest);
    ConcatAssoc(pre + (BuildSuffix + "/") + ContentItem, sub, stem + ".md");
  }

  /** Dropping the first `content/` after `<pre>build/`. */
  lemma {:induction false} DropContent(pre: string, rest: string)
    requires !Includes(pre, ContentItem)
    ensures ReplaceFirst(pre + (BuildSuffix + "/") + ContentItem + rest, ContentItem, "") == pre + (BuildSuffix + "/") + rest
  {
    var head := pre + (BuildSuffix + "/");
    ExtendNotIncluded(pre, BuildSuffix + "/", ContentItem);
    NoOccurrenceBefore(head, ContentItem, rest);
    ReplaceAt(head, ContentItem, rest, "");
  }

  /** The rewritten path of `about`: the first `content/` after `<pre>build/`
      is dropped, giving `<pre>build/<sub>about.md`; a `content/` inside
      `sub` stays. */
  lemma {:induction false} AboutInBuild(pre: string, sub: string)
    requires !Includes(pre, ContentItem)
    ensures PathInBuild(pre + ContentItem + sub + AboutStem + ".md", AboutStem)
            == pre + (BuildSuffix + "/") + sub + (AboutStem + ".md")
  {
    var rest := sub + (AboutStem + ".md");
    ConcatAssoc(pre + ContentItem + sub, AboutStem, ".md");
    ConcatAssoc(pre + ContentItem, sub, AboutStem + ".md");
    BuildPathOfDocument(pre, rest);
    DropContent(pre, rest);
    ConcatAssoc(pre + (BuildSuffix + "/"), sub, AboutStem + ".md");
  }

  /** The page file of a document whose stem and rewritten path are known. */
  lemma {:induction false} PagePathFrom(a: Article, stem: string, b: string)
    requires FileStem(a.path) == stem && !('/' in stem + ".md")
    requires PathInBuild(a.path, stem) == b + (stem + ".md")
    requires |b| > 1 && b[|b| - 1] == '/'
    ensures PagePath(a) == b + Slug(stem) + "/" + IndexFile
  {
    DirnameOfSlashed(b, stem + ".md");
  }

  /** An article (not `about`) under `<pre>content/<sub>` is written to
      `<pre>build/content/<sub><slug>/index.html`: unlike index.ts, its
      subdirectories are kept. */
  lemma {:induction false} ArticlePathShape(pre: string, sub: string, stem: string)
    requires !Includes(pre, ContentItem)
    requires sub == "" || sub[|sub| - 1] == '/'
    requires stem != "" && !('/' in stem) && stem != AboutStem
    ensures PagePath(Article(pre + ContentItem + sub + stem + ".md", map[], ""))
            == pre + (BuildSuffix + "/") + ContentItem + sub + Slug(stem) + "/" + IndexFile
  {
    var d := pre + ContentItem + sub;
    assert d[|d| - 1] == '/';
    StemOfDocument(d, stem);
    ArticleInBuild(pre, sub, stem);
    MarkdownName(stem);
    var b := pre + (BuildSuffix + "/") + ContentItem + sub;
    assert b[|b| - 1] == '/';
    PagePathFrom(Article(d + stem + ".md", map[], ""), stem, b);
  }

  /** `about` under `<pre>content/<sub>` is written to
      `<pre>build/<sub>about/index.html`. */
  lemma {:induction false} AboutPathShape(pre: string, sub: string)
    requires !Includes(pre, ContentItem)
    requires sub == "" || sub[|sub| - 1] == '/'
    ensures PagePath(Article(pre + ContentItem + sub + AboutStem + ".md", map[], ""))
            == pre + (BuildSuffix + "/") + sub + AboutStem + "/" + IndexFile
  {
    var d := pre + ContentItem + sub;
    assert d[|d| - 1] == '/';
    StemOfDocument(d, AboutStem);
    AboutInBuild(pre, sub);
    MarkdownName(AboutStem);
    var b := pre + (BuildSuffix + "/") + sub;
    assert b[|b| - 1] == '/';
    PagePathFrom(Article(d + AboutStem + ".md", map[], ""), AboutStem, b);
    ReplaceAllCharAbsent(AboutStem, '_', '-');
  }

  /** The homepage goes to `<sourceDir>build/index.html`, when the source
      directory's path holds no `index.html`. */
  lemma {:induction false} HomepagePathShape(sourceDir: string)
    requires !Includes(sourceDir, IndexFile)
    ensures HomepagePath(sourceDir) == sourceDir + (BuildSuffix + "/") + IndexFile
  {
    NoOccurrenceBefore(sourceDir, IndexFile, "");
    assert sourceDir + IndexFile + "" == sourceDir + IndexFile;
    ReplaceAt(sourceDir, IndexFile, "", BuildSuffix + "/" + IndexFile);
    ConcatAssoc(sourceDir, BuildSuffix + "/", IndexFile);
  }

  /** A file name after a `/` never ends like a template. */
  lemma {:induction false} IndexNotTemplate(dir: string, sourceDir: string, name: string)
    requires |dir| > 0 && dir[|dir| - 1] == '/' && EndsWith(name, "-template.html")
    ensures dir + IndexFile != sourceDir + name
  {
    var p := dir + IndexFile;
    var t := sourceDir + name;
    assert p[|p| - 11] == '/';
    assert t[|t| - 14..][3] == 'm';
    assert t[|t| - 11] == 'm';
  }

  /** No page is ever written over a template: page files end in
      `/index.html`, templates in `template.html`. */
  lemma {:induction false} PageNotTemplate(a: Article, sourceDir: string, name: string)
    requires EndsWith(name, "-template.html")
    ensures PagePath(a) != sourceDir + name
  {
    IndexNotTemplate(OutputDir(a.path), sourceDir, name);
  }

  /** The templates sit outside the removed build tree. */
  lemma {:induction false} TemplateNotInBuild(sourceDir: string, name: string)
    requires |name| > 0 && name[0] == 't'
    ensures !Under(sourceDir + name, sourceDir + BuildSuffix)
  {
    var p := sourceDir + name;
    var dir := sourceDir + BuildSuffix;
    assert p[|sourceDir|] == 't';
    assert dir[|sourceDir|] == 'b';
    if |p| > |dir| {
      assert p[..|dir|][|sourceDir|] == 't';
    }
  }

  /** The articles' loop ends without an error exactly when every page can
      be made. */
  lemma {:induction false} ArticlesRunOk(files: map<string, string>, template: string, arts: seq<Article>, parse: DateParser)
    ensures ArticlesRun(files, template, arts, parse).failure.None? <==>
              forall j :: 0 <= j < |arts| ==> Page(template, arts[j], parse).Ok?
  {
    RunFixedOk(files, arts, PageStep(template, parse), PathStep());
  }

  /** The error the articles' loop ends with is that of the first article,
      in order, whose page cannot be made. */
  lemma {:induction false} ArticlesRunFirstError(files: map<string, string>, template: string, arts: seq<Article>, parse: DateParser, i: int)
    requires 0 <= i < |arts|
    requires forall j :: 0 <= j < i ==> Page(template, arts[j], parse).Ok?
    requires Page(template, arts[i], parse).Err?
    ensures ArticlesRun(files, template, arts, parse).failure == Some(Page(template, arts[i], parse).error)
  {
    RunFixedFirstError(files, arts, PageStep(template, parse), PathStep(), i);
  }

  /** Without an error, each page is in its file, when no two articles
      share a file. */
  lemma {:induction false} ArticlesRunWrites(files: map<string, string>, template: string, arts: seq<Article>, parse: DateParser)
    requires forall i, j :: 0 <= i < j < |arts| ==> PagePath(arts[i]) != PagePath(arts[j])
    requires ArticlesRun(files, template, arts, parse).failure.None?
    ensures forall j :: 0 <= j < |arts| ==>
              PagePath(arts[j]) in ArticlesRun(files, template, arts, parse).files
              && Page(template, arts[j], parse).Ok?
              && ArticlesRun(files, template, arts, parse).files[PagePath(arts[j])] == Page(template, arts[j], parse).value
  {
    RunFixedWrites(files, arts, PageStep(template, parse), PathStep());
  }

  /** The homepage template the run reads after the articles is the one
      that was there before them. */
  lemma {:induction false} HomepageTemplateKept(files: map<string, string>, template: string, sourceDir: string, arts: seq<Article>, parse: DateParser)
    ensures ReadFile(ArticlesRun(files, template, arts, parse).files, sourceDir + HomepageTemplatePath)
            == ReadFile(files, sourceDir + HomepageTemplatePath)
  {
    forall j | 0 <= j < |arts|
      ensures PathStep()(arts[j]) != sourceDir + HomepageTemplatePath
    {
      assert HomepageTemplatePath[|HomepageTemplatePath| - 14..] == "-template.html";
      PageNotTemplate(arts[j], sourceDir, HomepageTemplatePath);
    }
    RunKeeps(files, arts, PageStep(template, parse), PathStep(), sourceDir + HomepageTemplatePath);
  }

  /** The build ends without an error exactly when every document can be
      read, the three templates exist, every page can be made and so can
      the homepage. */
  lemma {:induction false} BuildOk(files: map<string, string>, sourceDir: string, entries: seq<Dirent>, parse: DateParser, render: Renderer)
    ensures var paths := LegacyGetMdFiles(entries, sourceDir + ContentSuffix + "/" + DraftSuffix + "/");
            var parsed := Parsed(files, paths, JsSplit, render);
            Build(files, sourceDir, entries, parse, render).failure.None? <==>
              parsed.Ok?
              && sourceDir + ArticleTemplatePath in files && sourceDir + AboutTemplatePath in files
              && sourceDir + HomepageTemplatePath in files
              && (forall j :: 0 <= j < |parsed.value| ==> Page(files[sourceDir + ArticleTemplatePath], parsed.value[j], parse).Ok?)
              && AddArticles(files[sourceDir + HomepageTemplatePath], ContentSuffix, parsed.value, parse).Ok?
  {
    var paths := LegacyGetMdFiles(entries, sourceDir + ContentSuffix + "/" + DraftSuffix + "/");
    var parsed := Parsed(files, paths, JsSplit, render);
    if parsed.Ok? {
      var arts := parsed.value;
      var cleared := RemoveTree(files, sourceDir + BuildSuffix);
      TemplateNotInBuild(sourceDir, ArticleTemplatePath);
      TemplateNotInBuild(sourceDir, AboutTemplatePath);
      TemplateNotInBuild(sourceDir, HomepageTemplatePath);
      if sourceDir + ArticleTemplatePath in files {
        var template := files[sourceDir + ArticleTemplatePath];
        ArticlesRunOk(cleared, template, arts, parse);
        HomepageTemplateKept(cleared, template, sourceDir, arts, parse);
      }
    }
  }

  /** A build without an error leaves each article's page in its file and
      the homepage in its own, when no two of them share a file; of every
      other file, nothing is left inside `<sourceDir>build` and everything
      outside it is as it was. */
  lemma {:induction false} BuildWrites(files: map<string, string>, sourceDir: string, entries: seq<Dirent>, parse: DateParser, render: Renderer)
    requires Build(files, sourceDir, entries, parse, render).failure.None?
    requires var parsed := Parsed(files, LegacyGetMdFiles(entries, sourceDir + ContentSuffix + "/" + DraftSuffix + "/"), JsSplit, render);
             parsed.Ok? ==>
               (forall i, j :: 0 <= i < j < |parsed.value| ==> PagePath(parsed.value[i]) != PagePath(parsed.value[j]))
               && forall j :: 0 <= j < |parsed.value| ==> PagePath(parsed.value[j]) != HomepagePath(sourceDir)
    ensures var parsed := Parsed(files, LegacyGetMdFiles(entries, sourceDir + ContentSuffix + "/" + DraftSuffix + "/"), JsSplit, render);
            var out := Build(files, sourceDir, entries, parse, render).files;
            parsed.Ok? && sourceDir + ArticleTemplatePath in files && sourceDir + HomepageTemplatePath in files
            && HomepagePath(sourceDir) in out
            && AddArticles(files[sourceDir + HomepageTemplatePath], ContentSuffix, parsed.value, parse).Ok?
            && out[HomepagePath(sourceDir)] == AddArticles(files[sourceDir + HomepageTemplatePath], ContentSuffix, parsed.value, parse).value
            && forall j :: 0 <= j < |parsed.value| ==>
                 PagePath(parsed.value[j]) in out && Page(files[sourceDir + ArticleTemplatePath], parsed.value[j], parse).Ok?
                 && out[PagePath(parsed.value[j])] == Page(files[sourceDir + ArticleTemplatePath], parsed.value[j], parse).value
    ensures var parsed := Parsed(files, LegacyGetMdFiles(entries, sourceDir + ContentSuffix + "/" + DraftSuffix + "/"), JsSplit, render);
            var out := Build(files, sourceDir, entries, parse, render).files;
            forall p :: NotWritten(p, sourceDir, parsed.value) ==>
              if Under(p, sourceDir + BuildSuffix) then p !in out
              else (p in out <==> p in files) && (p in out ==> out[p] == files[p])
  {
    OthersCleared(files, sourceDir, entries, parse, render);
    var paths := LegacyGetMdFiles(entries, sourceDir + ContentSuffix + "/" + DraftSuffix + "/");
    var parsed := Parsed(files, paths, JsSplit, render);
    var arts := parsed.value;
    var cleared := RemoveTree(files, sourceDir + BuildSuffix);
    TemplateNotInBuild(sourceDir, ArticleTemplatePath);
    TemplateNotInBuild(sourceDir, HomepageTemplatePath);
    var template := files[sourceDir + ArticleTemplatePath];
    ArticlesRunWrites(cleared, template, arts, parse);
    HomepageTemplateKept(cleared, template, sourceDir, arts, parse);
  }

  /** What the build leaves of a file that is neither a page nor the
      homepage: once the documents are parsed, nothing is left of the old
      `<sourceDir>build` tree, and every file outside it (the documents,
      the templates) is as it was. */
  lemma {:induction false} BuildClears(files: map<string, string>, sourceDir: string, entries: seq<Dirent>, parse: DateParser, render: Renderer, p: string)
    requires p != HomepagePath(sourceDir)
    requires var parsed := Parsed(files, LegacyGetMdFiles(entries, sourceDir + ContentSuffix + "/" + DraftSuffix + "/"), JsSplit, render);
             parsed.Ok? ==> forall j :: 0 <= j < |parsed.value| ==> PagePath(parsed.value[j]) != p
    ensures var parsed := Parsed(files, LegacyGetMdFiles(entries, sourceDir + ContentSuffix + "/" + DraftSuffix + "/"), JsSplit, render);
            var out := Build(files, sourceDir, entries, parse, render).files;
            if Under(p, sourceDir + BuildSuffix) then (parsed.Ok? ==> p !in out)
            else (p in out <==> p in files) && (p in out ==> out[p] == files[p])
  {
    var paths := LegacyGetMdFiles(entries, sourceDir + ContentSuffix + "/" + DraftSuffix + "/");
    var parsed := Parsed(files, paths, JsSplit, render);
    var out := Build(files, sourceDir, entries, parse, render);
    if parsed.Ok? {
      var arts := parsed.value;
      var cleared := RemoveTree(files, sourceDir + BuildSuffix);
      AfterParseKeeps(cleared, sourceDir, arts, parse, p);
      assert out == AfterParse(cleared, sourceDir, arts, parse);
    } else {
      assert out.files == files;
    }
  }

  /** A file that is neither the homepage nor the page of one of `arts`. */
  predicate NotWritten(p: string, sourceDir: string, arts: seq<Article>)
  {
    p != HomepagePath(sourceDir) && forall j :: 0 <= j < |arts| ==> PagePath(arts[j]) != p
  }

  /** `BuildClears` for every such file at once. */
  lemma {:induction false} OthersCleared(files: map<string, string>, sourceDir: string, entries: seq<Dirent>, parse: DateParser, render: Renderer)
    ensures var parsed := Parsed(files, LegacyGetMdFiles(entries, sourceDir + ContentSuffix + "/" + DraftSuffix + "/"), JsSplit, render);
            var out := Build(files, sourceDir, entries, parse, render).files;
            parsed.Ok? ==> forall p :: NotWritten(p, sourceDir, parsed.value) ==>
              if Under(p, sourceDir + BuildSuffix) then p !in out
              else (p in out <==> p in files) && (p in out ==> out[p] == files[p])
  {
    var parsed := Parsed(files, LegacyGetMdFiles(entries, sourceDir + ContentSuffix + "/" + DraftSuffix + "/"), JsSplit, render);
    forall p | parsed.Ok? && NotWritten(p, sourceDir, parsed.value)
      ensures var out := Build(files, sourceDir, entries, parse, render).files;
              if Under(p, sourceDir + BuildSuffix) then p !in out
              else (p in out <==> p in files) && (p in out ==> out[p] == files[p])
    {
      BuildClears(files, sourceDir, entries, parse, render, p);
    }
  }

  /** After the old build is gone, the articles and the homepage leave every
      other file as it was. */
  lemma {:induction false} AfterParseKeeps(cleared: map<string, string>, sourceDir: string, arts: seq<Article>, parse: DateParser, p: string)
    requires p != HomepagePath(sourceDir)
    requires forall j :: 0 <= j < |arts| ==> PagePath(arts[j]) != p
    ensures p in AfterParse(cleared, sourceDir, arts, parse).files <==> p in cleared
    ensures p in cleared ==> AfterParse(cleared, sourceDir, arts, parse).files[p] == cleared[p]
  {
    if sourceDir + ArticleTemplatePath in cleared && sourceDir + AboutTemplatePath in cleared {
      var template := cleared[sourceDir + ArticleTemplatePath];
      var o := ArticlesRun(cleared, template, arts, parse);
      assert forall j :: 0 <= j < |arts| ==> PathStep()(arts[j]) != p;
      RunKeeps(cleared, arts, PageStep(template, parse), PathStep(), p);
      HomepageRunKeeps(o, sourceDir, arts, parse, p);
      assert AfterParse(cleared, sourceDir, arts, parse) == HomepageRun(o, sourceDir, arts, parse);
    }
  }

  /** Writing the homepage leaves every other file as it was. */
  lemma {:induction false} HomepageRunKeeps(o: Outcome, sourceDir: string, arts: seq<Article>, parse: DateParser, p: string)
    requires p != HomepagePath(sourceDir)
    ensures p in HomepageRun(o, sourceDir, arts, parse).files <==> p in o.files
    ensures p in o.files ==> HomepageRun(o, sourceDir, arts, parse).files[p] == o.files[p]
  {
  }

  /** `createArticles`: `aboutTemplate` is passed in but never used. */
  method CreateArticles(disk: Disk, aboutTemplate: string, template: string, arts: seq<Article>, parse: DateParser)
    returns (failure: Option<BuildError>)
    modifies disk
    ensures Outcome(disk.files, failure) == ArticlesRun(old(disk.files), template, arts, parse)
  {
    ghost var start := disk.files;
    var page := PageStep(template, parse);
    var path := PathStep();
    failure := None;
    var n := 0;
    while n < |arts|
      invariant 0 <= n <= |arts|
      invariant Outcome(disk.files, None) == Run(start, arts[..n], page, path)
    {
      var a := arts[n];
      RunSnoc(start, arts, n, page, path);
      var fields := ResolveFields(a.meta, FileStem(a.path), parse);
      if fields.Err? {
        failure := Some(fields.error);
        RunPrefixFails(start, arts, n + 1, page, path);
        return;
      }
      disk.Write(OutputDir(a.path) + IndexFile, CompilePage(template, a.html, fields.value));
      n := n + 1;
    }
    assert arts[..n] == arts;
  }

  /** `addArticles`, computed by the year-index loops. */
  method AddArticlesLoop(template: string, contentDir: string, arts: seq<Article>, parse: DateParser) returns (r: Result<string, BuildError>)
    ensures r == AddArticles(template, contentDir, arts, parse)
  {
    var markup := BuildIndex(arts, parse, Legacy, contentDir);
    if markup.Err? {
      return Err(markup.error);
    }
    r := Ok(CompileHomepage(template, markup.value));
  }

  /** `createHomepage`: the compiled homepage written to its file. */
  method CreateHomepage(disk: Disk, template: string, sourceDir: string, contentDir: string, arts: seq<Article>, parse: DateParser)
    returns (failure: Option<BuildError>)
    modifies disk
    ensures var page := AddArticles(template, contentDir, arts, parse);
            if page.Err? then disk.files == old(disk.files) && failure == Some(page.error)
            else disk.files == old(disk.files)[HomepagePath(sourceDir) := page.value] && failure == None
  {
    var page := AddArticlesLoop(template, contentDir, arts, parse);
    if page.Err? {
      return Some(page.error);
    }
    disk.Write(SourcePathToBuildPath(sourceDir + IndexFile, BuildSuffix, IndexFile), page.value);
    failure := None;
  }

  method GenerateStaticSite(disk: Disk, sourceDir: string, entries: seq<Dirent>, parse: DateParser, render: Renderer)
    returns (failure: Option<BuildError>)
    modifies disk
    ensures Outcome(disk.files, failure) == Build(old(disk.files), sourceDir, entries, parse, render)
  {
    var contentDir := sourceDir + ContentSuffix + "/";
    var paths := LegacyGetMdFiles(entries, contentDir + DraftSuffix + "/");
    var details := ParseMdFiles(disk, paths, JsSplit, render);
    if details.Err? {
      return Some(details.error);
    }
    disk.Remove(sourceDir + BuildSuffix);
    var template := disk.Read(sourceDir + ArticleTemplatePath);
    if template.Err? {
      return Some(template.error);
    }
    var aboutTemplate := disk.Read(sourceDir + AboutTemplatePath);
    if aboutTemplate.Err? {
      return Some(aboutTemplate.error);
    }
    failure := CreateArticles(disk, aboutTemplate.value, template.value, details.value, parse);
    if failure.Some? {
      return;
    }
    var homepageTemplate := disk.Read(sourceDir + HomepageTemplatePath);
    if homepageTemplate.Err? {
      return Some(homepageTemplate.error);
    }
    failure := CreateHomepage(disk, homepageTemplate.value, sourceDir, ContentSuffix, details.value, parse);
  }
}
