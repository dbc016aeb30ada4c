/** Filling the placeholders of the page templates: index.ts lines 216-220
    and 307, and `injectIntoTemplate` with its calls in index.js lines
    100-102, 140-146 and 219. Each placeholder is filled by one `replace`
    with a string pattern, so only its first occurrence is filled. */
module Templates {
  import opened JsString
  import opened Resolve

  const ContentTag := "{{ content }}"
  const TitleTag := "{{ title }}"
  const PublishedTag := "{{ published_date }}"
  const LastModifiedTag := "{{ last_modified_date }}"
  const ArticlesTag := "{{ articles }}"

  /** An article page: the rendered markdown, then the title, the published
      date and the last-modified date, each into the first occurrence of its
      placeholder in the text so far. */
  function CompilePage(template: string, html: string, f: Fields): string
  {
    var withContent := ReplaceFirst(template, ContentTag, html);
    var withTitle := ReplaceFirst(withContent, TitleTag, f.title);
    var withDate := ReplaceFirst(withTitle, PublishedTag, f.published);
    ReplaceFirst(withDate, LastModifiedTag, f.lastModified)
  }

  /** The homepage: the year index into the first `{{ articles }}`. */
  function CompileHomepage(template: string, markup: string): string
  {
    ReplaceFirst(template, ArticlesTag, markup)
  }

  /** `tag` does not occur before the end of `a`: in any text `a + tag + b`
      the first `tag` is the one right after `a`. */
  predicate TagFirstAfter(a: string, tag: string)
  {
    tag != "" && !Includes(a + tag[..|tag| - 1], tag)
  }

  /** Filling the first occurrence of `tag` when it does not occur earlier. */
  lemma {:induction false} FillFirst(a: string, tag: string, b: string, v: string)
    requires TagFirstAfter(a, tag)
    ensures ReplaceFirst(a + tag + b, tag, v) == a + v + b
  {
    NoEarlierOccurrence(a, tag, b);
    ReplaceAt(a, tag, b, v);
  }

  /** Filling the first of four placeholders. */
  lemma {:induction false} FirstOfFour(a: string, t1: string, b: string, t2: string, c: string, t3: string, d: string, t4: string, e: string, v1: string)
    requires TagFirstAfter(a, t1)
    ensures ReplaceFirst(a + t1 + b + t2 + c + t3 + d + t4 + e, t1, v1) == a + v1 + b + t2 + c + t3 + d + t4 + e
  {
    Regroup(a + t1, b, t2, c, t3, d, t4, e);
    FillFirst(a, t1, b + t2 + c + t3 + d + t4 + e, v1);
    Regroup(a + v1, b, t2, c, t3, d, t4, e);
  }

  /** Filling the second of four placeholders once the first is filled. */
  lemma {:induction false} SecondOfFour(p: string, t2: string, c: string, t3: string, d: string, t4: string, e: string, v2: string)
    requires TagFirstAfter(p, t2)
    ensures ReplaceFirst(p + t2 + c + t3 + d + t4 + e, t2, v2) == p + v2 + c + t3 + d + t4 + e
  {
    Regroup5(p + t2, c, t3, d, t4, e);
    FillFirst(p, t2, c + t3 + d + t4 + e, v2);
    Regroup5(p + v2, c, t3, d, t4, e);
  }

  /** Filling the third of four placeholders once the first two are filled. */
  lemma {:induction false} ThirdOfFour(p: string, t3: string, d: string, t4: string, e: string, v3: string)
    requires TagFirstAfter(p, t3)
    ensures ReplaceFirst(p + t3 + d + t4 + e, t3, v3) == p + v3 + d + t4 + e
  {
    Regroup3(p + t3, d, t4, e);
    FillFirst(p, t3, d + t4 + e, v3);
    Regroup3(p + v3, d, t4, e);
  }

  /** Four placeholders in a row are filled in order when none of them
      occurs earlier in the text as filled so far. */
  lemma {:induction false} FourFilled(a: string, t1: string, b: string, t2: string, c: string, t3: string, d: string, t4: string, e: string,
                                      v1: string, v2: string, v3: string, v4: string)
    requires TagFirstAfter(a, t1) && TagFirstAfter(a + v1 + b, t2)
    requires TagFirstAfter(a + v1 + b + v2 + c, t3) && TagFirstAfter(a + v1 + b + v2 + c + v3 + d, t4)
    ensures ReplaceFirst(ReplaceFirst(ReplaceFirst(ReplaceFirst(a + t1 + b + t2 + c + t3 + d + t4 + e, t1, v1), t2, v2), t3, v3), t4, v4)
         == a + v1 + b + v2 + c + v3 + d + v4 + e
  {
    FirstOfFour(a, t1, b, t2, c, t3, d, t4, e, v1);
    SecondOfFour(a + v1 + b, t2, c, t3, d, t4, e, v2);
    ThirdOfFour(a + v1 + b + v2 + c, t3, d, t4, e, v3);
    FillFirst(a + v1 + b + v2 + c + v3 + d, t4, e, v4);
  }

  /** A template with the four placeholders in order gets each value in its
      place, provided no placeholder occurs earlier in the text as filled so
      far; the rest of the template is kept, and so is anything after the
      last placeholder, further placeholders included. */
  lemma {:induction false} PageFilled(a: string, b: string, c: string, d: string, e: string, html: string, f: Fields)
    requires TagFirstAfter(a, ContentTag) && TagFirstAfter(a + html + b, TitleTag)
    requires TagFirstAfter(a + html + b + f.title + c, PublishedTag)
    requires TagFirstAfter(a + html + b + f.title + c + f.published + d, LastModifiedTag)
    ensures CompilePage(a + ContentTag + b + TitleTag + c + PublishedTag + d + LastModifiedTag + e, html, f)
         == a + html + b + f.title + c + f.published + d + f.lastModified + e
  {
    FourFilled(a, ContentTag, b, TitleTag, c, PublishedTag, d, LastModifiedTag, e, html, f.title, f.published, f.lastModified);
  }

  /** A template holding none of the four placeholders is returned as it is. */
  lemma {:induction false} PageWithoutPlaceholders(template: string, html: string, f: Fields)
    requires !Includes(template, ContentTag) && !Includes(template, TitleTag)
    requires !Includes(template, PublishedTag) && !Includes(template, LastModifiedTag)
    ensures CompilePage(template, html, f) == template
  {
    IncludesMeans(template, ContentTag);
    IncludesMeans(template, TitleTag);
    IncludesMeans(template, PublishedTag);
    IncludesMeans(template, LastModifiedTag);
    ReplaceAbsent(template, ContentTag, html);
    ReplaceAbsent(template, TitleTag, f.title);
    ReplaceAbsent(template, PublishedTag, f.published);
    ReplaceAbsent(template, LastModifiedTag, f.lastModified);
  }

  /** A placeholder that occurs twice is filled once: the second occurrence
      stays in the page. */
  lemma {:induction false} SecondTitleKept(a: string, b: string, title: string)
    requires TagFirstAfter(a, TitleTag)
    ensures ReplaceFirst(a + TitleTag + b + TitleTag, TitleTag, title) == a + title + b + TitleTag
  {
    ConcatAssoc(a + TitleTag, b, TitleTag);
    FillFirst(a, TitleTag, b + TitleTag, title);
  }

  /** Rendered markdown that itself contains `{{ title }}` receives the
      title, because the content is filled in first; the template's own
      title placeholder is left unfilled. */
  lemma {:induction false} ContentCapturesTitle(a: string, b: string, h1: string, h2: string, title: string)
    requires TagFirstAfter(a, ContentTag) && TagFirstAfter(a + h1, TitleTag)
    ensures ReplaceFirst(ReplaceFirst(a + ContentTag + b, ContentTag, h1 + TitleTag + h2), TitleTag, title)
         == a + h1 + title + h2 + b
  {
    FillFirst(a, ContentTag, b, h1 + TitleTag + h2);
    Regroup3(a, h1, TitleTag, h2);
    ConcatAssoc(a, h1 + TitleTag + h2, b);
    ConcatAssoc(a + h1 + TitleTag, h2, b);
    Regroup3(a, h1, title, h2);
    ConcatAssoc(a + h1 + title, h2, b);
    FillFirst(a + h1, TitleTag, h2 + b, title);
  }

  /** The homepage template gets the year index in place of its first
      `{{ articles }}`. */
  lemma {:induction false} HomepageFilled(a: string, b: string, markup: string)
    requires TagFirstAfter(a, ArticlesTag)
    ensures CompileHomepage(a + ArticlesTag + b, markup) == a + markup + b
  {
    FillFirst(a, ArticlesTag, b, markup);
  }
}
