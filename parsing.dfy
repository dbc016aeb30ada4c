/** `parseMdFiles` (index.ts lines 99-114, index.js lines 82-98): read each
    discovered document, split it into metadata and body, and render the
    body. The two variants differ only in the splitter. */
module Parsing {
  import opened Wrappers
  import opened Errors
  import opened JsString
  import opened FrontMatter
  import opened Resolve
  import opened FileStore

  /** A splitter: `splitContent` of one variant, possibly throwing. */
  type Splitter = string -> Result<(Meta, string), BuildError>

  /** `md.render`: the markdown renderer, left uninterpreted. */
  type Renderer = string -> string

  /** The splitter of index.ts, which throws on a document without `---`. */
  function TsSplit(content: string): Result<(Meta, string), BuildError>
  {
    TsSplitContent(content)
  }

  /** The splitter of index.js, which never throws. */
  function JsSplit(content: string): Result<(Meta, string), BuildError>
  {
    Ok(JsSplitContent(content))
  }

  /** One pass of the loop: the path, its metadata and its rendered body. */
  function ParseOne(files: map<string, string>, path: string, split: Splitter, render: Renderer): Result<Article, BuildError>
  {
    var data :- ReadFile(files, path);
    var parts :- split(data);
    Ok(Article(path, parts.0, render(parts.1)))
  }

  /** A document fails to load when it cannot be read or cannot be split;
      otherwise it keeps its path, its metadata and its rendered body. */
  lemma {:induction false} ParseOneCases(files: map<string, string>, path: string, split: Splitter, render: Renderer)
    ensures path !in files ==> ParseOne(files, path, split, render) == Err(IOFailure(path))
    ensures path in files && split(files[path]).Err? ==> ParseOne(files, path, split, render) == Err(split(files[path]).error)
    ensures ParseOne(files, path, split, render).Ok? <==> path in files && split(files[path]).Ok?
    ensures ParseOne(files, path, split, render).Ok? ==>
              ParseOne(files, path, split, render).value
              == Article(path, split(files[path]).value.0, render(split(files[path]).value.1))
  {
  }

  /** The articles of the loop over `paths`, in order, or the error of the
      first document that fails. */
  function Parsed(files: map<string, string>, paths: seq<string>, split: Splitter, render: Renderer): Result<seq<Article>, BuildError>
    decreases |paths|
  {
    if |paths| == 0 then Ok([])
    else
      var init :- Parsed(files, paths[..|paths| - 1], split, render);
      var a :- ParseOne(files, paths[|paths| - 1], split, render);
      Ok(init + [a])
  }

  lemma {:induction false} ParsedSnoc(files: map<string, string>, paths: seq<string>, n: int, split: Splitter, render: Renderer)
    requires 0 <= n < |paths|
    ensures Parsed(files, paths[..n], split, render).Err? ==>
              Parsed(files, paths[..n + 1], split, render) == Parsed(files, paths[..n], split, render)
    ensures Parsed(files, paths[..n], split, render).Ok? && ParseOne(files, paths[n], split, render).Err? ==>
              Parsed(files, paths[..n + 1], split, render) == Err(ParseOne(files, paths[n], split, render).error)
    ensures Parsed(files, paths[..n], split, render).Ok? && ParseOne(files, paths[n], split, render).Ok? ==>
              Parsed(files, paths[..n + 1], split, render)
              == Ok(Parsed(files, paths[..n], split, render).value + [ParseOne(files, paths[n], split, render).value])
  {
    assert paths[..n + 1][..n] == paths[..n];
    assert paths[..n + 1][n] == paths[n];
  }

  /** The loop succeeds exactly when every document loads, and then yields
      one article per path, in discovery order. */
  lemma {:induction false} ParsedOk(files: map<string, string>, paths: seq<string>, split: Splitter, render: Renderer)
    ensures Parsed(files, paths, split, render).Ok? <==>
              forall i :: 0 <= i < |paths| ==> ParseOne(files, paths[i], split, render).Ok?
    ensures Parsed(files, paths, split, render).Ok? ==>
              |Parsed(files, paths, split, render).value| == |paths|
              && forall i :: 0 <= i < |paths| ==>
                   Parsed(files, paths, split, render).value[i] == ParseOne(files, paths[i], split, render).value
    decreases |paths|
  {
    if |paths| > 0 {
      var n := |paths| - 1;
      var init := paths[..n];
      ParsedOk(files, init, split, render);
      ParsedSnoc(files, paths, n, split, render);
      assert paths[..n + 1] == paths;
      assert forall i :: 0 <= i < n ==> init[i] == paths[i];
    }
  }

  lemma {:induction false} ParsedPrefixErr(files: map<string, string>, paths: seq<string>, n: int, split: Splitter, render: Renderer)
    requires 0 <= n <= |paths|
    requires Parsed(files, paths[..n], split, render).Err?
    ensures Parsed(files, paths, split, render) == Parsed(files, paths[..n], split, render)
    decreases |paths| - n
  {
    if n < |paths| {
      ParsedSnoc(files, paths, n, split, render);
      ParsedPrefixErr(files, paths, n + 1, split, render);
    } else {
      assert paths[..n] == paths;
    }
  }

  /** The error is that of the first document, in discovery order, that
      fails to load. */
  lemma {:induction false} ParsedFirstError(files: map<string, string>, paths: seq<string>, split: Splitter, render: Renderer, i: int)
    requires 0 <= i < |paths|
    requires forall j :: 0 <= j < i ==> ParseOne(files, paths[j], split, render).Ok?
    requires ParseOne(files, paths[i], split, render).Err?
    ensures Parsed(files, paths, split, render) == Err(ParseOne(files, paths[i], split, render).error)
  {
    var pre := paths[..i];
    ParsedOk(files, pre, split, render);
    assert forall j :: 0 <= j < i ==> pre[j] == paths[j];
    ParsedSnoc(files, paths, i, split, render);
    ParsedPrefixErr(files, paths, i + 1, split, render);
  }

  /** index.js only fails to load a document it cannot read. */
  lemma {:induction false} JsParsedReadsOnly(files: map<string, string>, paths: seq<string>, render: Renderer)
    ensures Parsed(files, paths, JsSplit, render).Ok? <==> forall i :: 0 <= i < |paths| ==> paths[i] in files
  {
    ParsedOk(files, paths, JsSplit, render);
    forall i | 0 <= i < |paths|
      ensures ParseOne(files, paths[i], JsSplit, render).Ok? <==> paths[i] in files
    {
      ParseOneCases(files, paths[i], JsSplit, render);
    }
  }

  /** index.ts loads every readable document that contains `---`, and
      throws its `TypeError` at one that does not. */
  lemma {:induction false} TsParsedNeedsDelineator(files: map<string, string>, paths: seq<string>, render: Renderer)
    ensures Parsed(files, paths, TsSplit, render).Ok? <==>
              forall i :: 0 <= i < |paths| ==> paths[i] in files && Includes(files[paths[i]], Delineator)
  {
    ParsedOk(files, paths, TsSplit, render);
    forall i | 0 <= i < |paths|
      ensures ParseOne(files, paths[i], TsSplit, render).Ok? <==> paths[i] in files && Includes(files[paths[i]], Delineator)
    {
      ParseOneCases(files, paths[i], TsSplit, render);
    }
  }

  /** `parseMdFiles`: read each path, split and render it, and push the
      article; a read or split that throws ends the loop. */
  method ParseMdFiles(disk: Disk, paths: seq<string>, split: Splitter, render: Renderer) returns (r: Result<seq<Article>, BuildError>)
    ensures r == Parsed(disk.files, paths, split, render)
  {
    var details: seq<Article> := [];
    var n := 0;
    while n < |paths|
      invariant 0 <= n <= |paths|
      invariant Parsed(disk.files, paths[..n], split, render) == Ok(details)
    {
      var path := paths[n];
      ParsedSnoc(disk.files, paths, n, split, render);
      var data := disk.Read(path);
      if data.Err? {
        ParsedPrefixErr(disk.files, paths, n + 1, split, render);
        return Err(data.error);
      }
      var parts := split(data.value);
      if parts.Err? {
        ParsedPrefixErr(disk.files, paths, n + 1, split, render);
        return Err(parts.error);
      }
      var html := render(parts.value.1);
      details := details + [Article(path, parts.value.0, html)];
      n := n + 1;
    }
    assert paths[..n] == paths;
    r := Ok(details);
  }
}
