/** The fields of an article that come from its metadata and its file name
    (index.ts lines 189-197, index.js lines 141-145): the title, the
    published and last-modified dates, the slug of its address and the tags
    of its homepage bullet. */
module Resolve {
  import opened Wrappers
  import opened Errors
  import opened JsString
  import opened TitleCase
  import opened FrontMatter

  /** `new Date(v).toISOString().split("T")[0]`, or `None` where that throws
      (an invalid date). Date parsing is the platform's and is a parameter. */
  type DateParser = string -> Option<string>

  /** The title of an article without a `title` entry: its file name with every
      `_` turned into a space, title-cased. */
  function DefaultTitle(stem: string): (r: string)
    ensures |r| == |stem|
    ensures forall k :: 0 <= k < |stem| ==> (r[k] == ' ' <==> stem[k] == '_' || stem[k] == ' ')
    ensures forall k :: 0 <= k < |stem| && stem[k] != '_' ==> ToLowerChar(r[k]) == ToLowerChar(stem[k])
    ensures ToTitleCase(r) == r
  {
    var spaced := ReplaceAllChar(stem, '_', ' ');
    TitleCaseIsScan(spaced);
    ScanKeepsSpace(spaced, false);
    ScanSameLetters(spaced, false);
    TitleCaseIdempotent(spaced);
    ToTitleCase(spaced)
  }

  /** `meta.get("title") ?? DefaultTitle(stem)`. */
  function Title(meta: Meta, stem: string): string
  {
    match Get(meta, "title")
    case Some(t) => t
    case None => DefaultTitle(stem)
  }

  /** A `title` entry is used as it is, even when it is empty; only a missing
      or undefined one falls back to the file name. */
  lemma {:induction false} TitleChoice(meta: Meta, stem: string)
    ensures "title" in meta && meta["title"].Some? ==> Title(meta, stem) == meta["title"].value
    ensures ("title" !in meta || meta["title"].None?) ==> Title(meta, stem) == DefaultTitle(stem)
  {
  }

  /** `my_first_post` is titled `My First Post`. */
  lemma {:induction false} DefaultTitleExample()
    ensures DefaultTitle("my" + "_" + "first" + "_" + "post") == "My" + " " + "First" + " " + "Post"
  {
    MyFirstPost();
  }

  /** The last path segment of an article's address: its file name with every
      `_` turned into `-`. */
  function Slug(stem: string): (r: string)
    ensures |r| == |stem| && !('_' in r)
    ensures forall k :: 0 <= k < |stem| ==> r[k] == (if stem[k] == '_' then '-' else stem[k])
  {
    ReplaceAllChar(stem, '_', '-')
  }

  /** Two file names that differ only in `_` against `-` get the same slug,
      so their pages go to the same place. */
  lemma {:induction false} SlugCollision(x: string, y: string)
    ensures Slug(x + "_" + y) == Slug(x + "-" + y)
  {
    ReplaceAllCharConcat(x + "_", y, '_', '-');
    ReplaceAllCharConcat(x + "-", y, '_', '-');
    ReplaceAllCharConcat(x, "_", '_', '-');
    ReplaceAllCharConcat(x, "-", '_', '-');
  }

  /** The value of a date entry when it is truthy: present, defined and not
      empty. */
  function DateEntry(meta: Meta, key: string): (r: Option<string>)
    ensures r.Some? <==> Get(meta, key).Some? && Get(meta, key).value != ""
    ensures r.Some? ==> r == Get(meta, key)
  {
    match Get(meta, key)
    case Some(v) => if v != "" then Some(v) else None
    case None => None
  }

  /** `parseDate(v)`, which throws on a date the platform rejects. */
  function ParseDate(parse: DateParser, v: string): (r: Result<string, BuildError>)
    ensures r.Err? <==> parse(v).None?
    ensures r.Err? ==> r.error == InvalidDate(v)
    ensures r.Ok? ==> r.value == parse(v).value
  {
    match parse(v)
    case Some(d) => Ok(d)
    case None => Err(InvalidDate(v))
  }

  /** The published date: `""` without a truthy `published_date` entry,
      otherwise the parsed entry. */
  function PublishedDate(meta: Meta, parse: DateParser): Result<string, BuildError>
  {
    match DateEntry(meta, "published_date")
    case None => Ok("")
    case Some(v) => ParseDate(parse, v)
  }

  /** The last-modified date: the parsed `last_modified_date` entry when it is
      truthy, otherwise the published date. */
  function LastModifiedDate(meta: Meta, parse: DateParser, published: string): Result<string, BuildError>
  {
    match DateEntry(meta, "last_modified_date")
    case None => Ok(published)
    case Some(v) => ParseDate(parse, v)
  }

  /** The published date is empty, without an error, when the entry is
      missing, undefined or empty; it is an error exactly when a non-empty
      entry does not parse. Given a parser that never yields an empty date
      (as `toISOString` does not), the first case is also the only way to get
      an empty date. */
  lemma {:induction false} PublishedDateCases(meta: Meta, parse: DateParser)
    ensures Get(meta, "published_date") in {None, Some("")} ==> PublishedDate(meta, parse) == Ok("")
    ensures PublishedDate(meta, parse).Err?
        <==> exists v :: Get(meta, "published_date") == Some(v) && v != "" && parse(v).None?
    ensures PublishedDate(meta, parse).Err? ==>
              PublishedDate(meta, parse).error == InvalidDate(Get(meta, "published_date").value)
    ensures (forall v :: parse(v) != Some("")) ==>
              (PublishedDate(meta, parse) == Ok("") <==> Get(meta, "published_date") in {None, Some("")})
  {
    var g := Get(meta, "published_date");
    if g.Some? && g.value != "" {
      var v := g.value;
      assert DateEntry(meta, "published_date") == Some(v);
      if parse(v).None? {
        assert Get(meta, "published_date") == Some(v) && v != "" && parse(v).None?;
      }
    }
  }

  /** A date already in `YYYY-MM-DD` form, which the parser returns unchanged,
      is kept as written. */
  lemma {:induction false} PublishedDateKept(meta: Meta, parse: DateParser, v: string)
    requires Get(meta, "published_date") == Some(v) && v != ""
    requires parse(v) == Some(v)
    ensures PublishedDate(meta, parse) == Ok(v)
  {
  }

  /** Without a truthy `last_modified_date` entry the last-modified date is the
      published date; with one, it is that entry parsed, whatever the
      published date is. */
  lemma {:induction false} LastModifiedCases(meta: Meta, parse: DateParser, published: string)
    ensures Get(meta, "last_modified_date") in {None, Some("")} ==>
              LastModifiedDate(meta, parse, published) == Ok(published)
    ensures Get(meta, "last_modified_date").Some? && Get(meta, "last_modified_date").value != "" ==>
              LastModifiedDate(meta, parse, published)
              == ParseDate(parse, Get(meta, "last_modified_date").value)
  {
  }

  /** One parsed source document: its path, its metadata and its body
      rendered to HTML. */
  datatype Article = Article(path: string, meta: Meta, html: string)

  /** The resolved fields of one article page. */
  datatype Fields = Fields(title: string, published: string, lastModified: string)

  /** The fields of an article page, in the order the source computes them;
      the first date that does not parse is the error. */
  function ResolveFields(meta: Meta, stem: string, parse: DateParser): (r: Result<Fields, BuildError>)
    ensures r.Ok? <==> PublishedDate(meta, parse).Ok?
                       && LastModifiedDate(meta, parse, PublishedDate(meta, parse).value).Ok?
    ensures PublishedDate(meta, parse).Err? ==> r == Err(PublishedDate(meta, parse).error)
    ensures r.Ok? ==> r.value.title == Title(meta, stem)
                      && Ok(r.value.published) == PublishedDate(meta, parse)
                      && Ok(r.value.lastModified) == LastModifiedDate(meta, parse, r.value.published)
  {
    var title := Title(meta, stem);
    var published :- PublishedDate(meta, parse);
    var lastModified :- LastModifiedDate(meta, parse, published);
    Ok(Fields(title, published, lastModified))
  }

  /** `${meta.get("tags")}`: the tags as written, or the text `undefined`. */
  function TagsText(meta: Meta): (r: string)
    ensures Get(meta, "tags").Some? ==> r == Get(meta, "tags").value
    ensures Get(meta, "tags").None? ==> r == "undefined"
  {
    match Get(meta, "tags")
    case Some(t) => t
    case None => "undefined"
  }
}
