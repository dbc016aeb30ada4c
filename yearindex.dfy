/** The homepage's index of articles by year: the loop of `createHomepage`
    (index.ts lines 241-298) and of `addArticles` (index.js lines 175-219).
    The two variants differ only in the markup of a bullet. */
module YearIndex {
  import opened Wrappers
  import opened Errors
  import opened JsString
  import opened Paths
  import opened FrontMatter
  import opened Resolve
  import opened Sorting
  import opened Grouping
  import opened Templates

  /** Which variant's bullet markup: index.ts or index.js. */
  datatype Markup = Current | Legacy

  /** The file name of the page that is not an article. */
  const AboutStem := "about"
  /** `SETTINGS.contentDirectory`. */
  const ContentDirectory := "content"

  const BulletStart := "<li class=\"article-bullet "
  const LinkEnd := "\">"

  function LinkStart(m: Markup): string
  {
    match m
    case Current => "\">\n                            <a href=\""
    case Legacy => "\"><a href=\""
  }

  function BulletEnd(m: Markup): string
  {
    match m
    case Current => "</a>\n                           </li>"
    case Legacy => "</a></li>"
  }

  /** The link of an article: `<contentDir>/<slug>/`. */
  function Link(contentDir: string, slug: string): string
  {
    contentDir + "/" + slug + "/"
  }

  /** The bullet of one article: a list item of class `article-bullet` and the
      tags text, holding a link to the article with its title as text. */
  function Bullet(m: Markup, tags: string, contentDir: string, slug: string, title: string): string
  {
    BulletStart + tags + LinkStart(m) + Link(contentDir, slug) + LinkEnd + title + BulletEnd(m)
  }

  /** A bullet shows the tags, the link and the title. */
  lemma {:induction false} BulletShows(m: Markup, tags: string, contentDir: string, slug: string, title: string)
    ensures Includes(Bullet(m, tags, contentDir, slug, title), tags)
    ensures Includes(Bullet(m, tags, contentDir, slug, title), Link(contentDir, slug))
    ensures Includes(Bullet(m, tags, contentDir, slug, title), title)
  {
    Regroup5(BulletStart + tags, LinkStart(m), Link(contentDir, slug), LinkEnd, title, BulletEnd(m));
    IncludesMiddle(BulletStart, tags, LinkStart(m) + Link(contentDir, slug) + LinkEnd + title + BulletEnd(m));
    Regroup3(BulletStart + tags + LinkStart(m) + Link(contentDir, slug), LinkEnd, title, BulletEnd(m));
    IncludesMiddle(BulletStart + tags + LinkStart(m), Link(contentDir, slug), LinkEnd + title + BulletEnd(m));
    IncludesMiddle(BulletStart + tags + LinkStart(m) + Link(contentDir, slug) + LinkEnd, title, BulletEnd(m));
  }

  /** One pass of the loop over the parsed articles: nothing for `about`;
      otherwise the title and bullet, then the published date, which must
      parse and must not be empty. */
  function ItemOf(a: Article, parse: DateParser, m: Markup, contentDir: string): Result<Option<Item>, BuildError>
  {
    var stem := FileStem(a.path);
    if stem == AboutStem then Ok(None)
    else
      var title := Title(a.meta, stem);
      var bullet := Bullet(m, TagsText(a.meta), contentDir, Slug(stem), title);
      var published :- PublishedDate(a.meta, parse);
      if published == "" then Err(MissingPublishedDate(title))
      else Ok(Some(Item(published, bullet)))
  }

  /** `about` contributes nothing; any other article either contributes one
      entry carrying its date and bullet, or stops the build: with the
      `InvalidDate` error of a date that does not parse, or with
      `MissingPublishedDate` naming its title when the date is missing,
      undefined or empty. */
  lemma {:induction false} ItemOfCases(a: Article, parse: DateParser, m: Markup, contentDir: string)
    ensures FileStem(a.path) == AboutStem ==> ItemOf(a, parse, m, contentDir) == Ok(None)
    ensures FileStem(a.path) != AboutStem && PublishedDate(a.meta, parse).Err? ==>
              ItemOf(a, parse, m, contentDir) == Err(PublishedDate(a.meta, parse).error)
    ensures FileStem(a.path) != AboutStem && Get(a.meta, "published_date") in {None, Some("")} ==>
              ItemOf(a, parse, m, contentDir) == Err(MissingPublishedDate(Title(a.meta, FileStem(a.path))))
    ensures ItemOf(a, parse, m, contentDir).Ok? && FileStem(a.path) != AboutStem ==>
              var stem := FileStem(a.path);
              ItemOf(a, parse, m, contentDir).value
              == Some(Item(PublishedDate(a.meta, parse).value,
                           Bullet(m, TagsText(a.meta), contentDir, Slug(stem), Title(a.meta, stem))))
              && PublishedDate(a.meta, parse).value != ""
  {
    PublishedDateCases(a.meta, parse);
  }

  /** The loop over the articles, with `step` for one pass: the entries in
      discovery order, or the error of the first pass that fails. */
  function Collect(arts: seq<Article>, step: Article -> Result<Option<Item>, BuildError>): Result<seq<Item>, BuildError>
    decreases |arts|
  {
    if |arts| == 0 then Ok([])
    else
      var init :- Collect(arts[..|arts| - 1], step);
      var entry :- step(arts[|arts| - 1]);
      Ok(init + (if entry.Some? then [entry.value] else []))
  }

  /** The loop over two lists of articles is the loop over the first, then,
      unless it failed, over the second. */
  lemma {:induction false} CollectConcat(a: seq<Article>, b: seq<Article>, step: Article -> Result<Option<Item>, BuildError>)
    ensures Collect(a, step).Err? ==> Collect(a + b, step) == Collect(a, step)
    ensures Collect(a, step).Ok? && Collect(b, step).Err? ==> Collect(a + b, step) == Collect(b, step)
    ensures Collect(a, step).Ok? && Collect(b, step).Ok? ==>
              Collect(a + b, step) == Ok(Collect(a, step).value + Collect(b, step).value)
    decreases |b|
  {
    if |b| == 0 {
      assert a + b == a;
      if Collect(a, step).Ok? {
        assert Collect(a, step).value + [] == Collect(a, step).value;
      }
    } else {
      var b0 := b[..|b| - 1];
      assert (a + b)[..|a + b| - 1] == a + b0;
      var last := b[|b| - 1];
      assert (a + b)[|a + b| - 1] == last;
      CollectConcat(a, b0, step);
      if Collect(a, step).Ok? && Collect(b0, step).Ok? && step(last).Ok? {
        var x, y := Collect(a, step).value, Collect(b0, step).value;
        var e := if step(last).value.Some? then [step(last).value.value] else [];
        assert x + y + e == x + (y + e);
      }
    }
  }

  /** A pass that adds nothing can be left out. */
  lemma {:induction false} CollectSkips(a: seq<Article>, x: Article, b: seq<Article>, step: Article -> Result<Option<Item>, BuildError>)
    requires step(x) == Ok(None)
    ensures Collect(a + [x] + b, step) == Collect(a + b, step)
  {
    var one := [x];
    assert one[..|one| - 1] == [] && one[|one| - 1] == x;
    assert Collect(one[..|one| - 1], step) == Ok([]);
    assert step(one[|one| - 1]) == Ok(None);
    assert Collect(one, step).Ok?;
    assert Collect(one, step).value == [];
    CollectConcat(a, [x], step);
    if Collect(a, step).Ok? {
      assert Collect(a, step).value + [] == Collect(a, step).value;
    }
    CollectConcat(a + [x], b, step);
    CollectConcat(a, b, step);
  }

  /** The loop succeeds exactly when every pass does. */
  lemma {:induction false} CollectOk(arts: seq<Article>, step: Article -> Result<Option<Item>, BuildError>)
    ensures Collect(arts, step).Ok? <==> forall j :: 0 <= j < |arts| ==> step(arts[j]).Ok?
    decreases |arts|
  {
    if |arts| > 0 {
      var init := arts[..|arts| - 1];
      CollectOk(init, step);
      assert forall j :: 0 <= j < |init| ==> init[j] == arts[j];
    }
  }

  /** The error is that of the first failing pass in discovery order. */
  lemma {:induction false} CollectFirstError(arts: seq<Article>, step: Article -> Result<Option<Item>, BuildError>, i: int)
    requires 0 <= i < |arts|
    requires forall j :: 0 <= j < i ==> step(arts[j]).Ok?
    requires step(arts[i]).Err?
    ensures Collect(arts, step) == Err(step(arts[i]).error)
  {
    var pre := arts[..i];
    var upto := arts[..i + 1];
    CollectOk(pre, step);
    assert upto[..i] == pre;
    assert upto[i] == arts[i];
    CollectConcat(upto, arts[i + 1..], step);
    assert upto + arts[i + 1..] == arts;
  }

  /** The entries of the articles for the homepage. */
  function Items(arts: seq<Article>, parse: DateParser, m: Markup, contentDir: string): Result<seq<Item>, BuildError>
  {
    Collect(arts, a => ItemOf(a, parse, m, contentDir))
  }

  /** A `TypeError` or `RangeError` is thrown at the first article, in
      discovery order, whose entry fails. */
  lemma {:induction false} ItemsFirstError(arts: seq<Article>, parse: DateParser, m: Markup, contentDir: string, i: int)
    requires 0 <= i < |arts|
    requires forall j :: 0 <= j < i ==> ItemOf(arts[j], parse, m, contentDir).Ok?
    requires ItemOf(arts[i], parse, m, contentDir).Err?
    ensures Items(arts, parse, m, contentDir) == Err(ItemOf(arts[i], parse, m, contentDir).error)
  {
    CollectFirstError(arts, a => ItemOf(a, parse, m, contentDir), i);
  }

  /** `about` adds no entry wherever it is. */
  lemma {:induction false} AboutSkipped(a: seq<Article>, about: Article, b: seq<Article>, parse: DateParser, m: Markup, contentDir: string)
    requires FileStem(about.path) == AboutStem
    ensures Items(a + [about] + b, parse, m, contentDir) == Items(a + b, parse, m, contentDir)
  {
    ItemOfCases(about, parse, m, contentDir);
    CollectSkips(a, about, b, x => ItemOf(x, parse, m, contentDir));
  }

  /** Each group with its entries in descending date order: the same year,
      the same entries, now sorted. */
  function Arrange(ys: seq<Group>): (r: seq<Group>)
    ensures |r| == |ys|
    ensures forall i :: 0 <= i < |ys| ==> r[i].year == ys[i].year
    ensures forall i :: 0 <= i < |ys| ==> SortedBy(r[i].items, ItemDate, true)
    ensures forall i :: 0 <= i < |ys| ==> multiset(r[i].items) == multiset(ys[i].items)
  {
    assert forall i :: 0 <= i < |ys| ==>
        SortedBy(SortBy(ys[i].items, ItemDate, true), ItemDate, true)
        && multiset(SortBy(ys[i].items, ItemDate, true)) == multiset(ys[i].items) by {
      forall i | 0 <= i < |ys|
        ensures SortedBy(SortBy(ys[i].items, ItemDate, true), ItemDate, true)
        ensures multiset(SortBy(ys[i].items, ItemDate, true)) == multiset(ys[i].items)
      {
        SortSorted(ys[i].items, ItemDate, true);
        SortPermutes(ys[i].items, ItemDate, true);
      }
    }
    seq(|ys|, i requires 0 <= i < |ys| => Group(ys[i].year, SortBy(ys[i].items, ItemDate, true)))
  }

  /** The groups in the order they are written out, each with its entries in
      descending date order. */
  function Layout(items: seq<Item>): (r: seq<Group>)
    ensures |r| == |SortYears(Groups(items))|
  {
    Arrange(SortYears(Groups(items)))
  }

  /** The loop over a list and one more article. */
  lemma {:induction false} CollectSnoc(a: seq<Article>, x: Article, step: Article -> Result<Option<Item>, BuildError>)
    ensures Collect(a, step).Err? ==> Collect(a + [x], step) == Collect(a, step)
    ensures Collect(a, step).Ok? && step(x).Err? ==> Collect(a + [x], step) == Err(step(x).error)
    ensures Collect(a, step).Ok? && step(x).Ok? ==>
              Collect(a + [x], step) == Ok(Collect(a, step).value + (if step(x).value.Some? then [step(x).value.value] else []))
  {
    assert (a + [x])[..|a|] == a;
    assert (a + [x])[|a|] == x;
  }

  /** A failure in a prefix of the articles is the failure of the whole loop. */
  lemma {:induction false} CollectPrefixErr(arts: seq<Article>, n: int, step: Article -> Result<Option<Item>, BuildError>)
    requires 0 <= n <= |arts|
    requires Collect(arts[..n], step).Err?
    ensures Collect(arts, step) == Collect(arts[..n], step)
  {
    CollectConcat(arts[..n], arts[n..], step);
    assert arts[..n] + arts[n..] == arts;
  }

  /** Every entry comes from an article, and every article's entry is there. */
  lemma {:induction false} CollectMembers(arts: seq<Article>, step: Article -> Result<Option<Item>, BuildError>, it: Item)
    requires Collect(arts, step).Ok?
    ensures it in Collect(arts, step).value <==> exists j :: 0 <= j < |arts| && step(arts[j]) == Ok(Some(it))
    decreases |arts|
  {
    if |arts| > 0 {
      var init := arts[..|arts| - 1];
      var last := arts[|arts| - 1];
      FrontLast(arts);
      CollectSnoc(init, last, step);
      CollectMembers(init, step, it);
      if exists j :: 0 <= j < |arts| && step(arts[j]) == Ok(Some(it)) {
        var j :| 0 <= j < |arts| && step(arts[j]) == Ok(Some(it));
        if j < |init| {
          assert init[j] == arts[j];
        }
      }
      if exists j :: 0 <= j < |init| && step(init[j]) == Ok(Some(it)) {
        var j :| 0 <= j < |init| && step(init[j]) == Ok(Some(it));
        assert arts[j] == init[j];
      }
    }
  }

  /** The homepage lists the entry of every article but `about`, and nothing
      else. */
  lemma {:induction false} ItemsMembers(arts: seq<Article>, parse: DateParser, m: Markup, contentDir: string, it: Item)
    requires Items(arts, parse, m, contentDir).Ok?
    ensures it in Items(arts, parse, m, contentDir).value <==>
              exists j :: 0 <= j < |arts| && ItemOf(arts[j], parse, m, contentDir) == Ok(Some(it))
  {
    CollectMembers(arts, a => ItemOf(a, parse, m, contentDir), it);
  }

  /** A group of the layout is a group of the `Map`, with its entries sorted. */
  lemma {:induction false} LayoutAt(items: seq<Item>, i: int) returns (k: int)
    requires 0 <= i < |Layout(items)|
    ensures 0 <= k < |Groups(items)|
    ensures Layout(items)[i].year == Groups(items)[k].year
    ensures Layout(items)[i].items == SortBy(Groups(items)[k].items, ItemDate, true)
  {
    var gs := Groups(items);
    var s := SortBy(gs, YearKey, false);
    var ys := SortYears(gs);
    ReverseAt(s, i);
    SortPermutes(gs, YearKey, false);
    assert ys[i] in multiset(gs) by {
      assert ys[i] == s[|s| - 1 - i];
      assert s[|s| - 1 - i] in multiset(s);
    }
    k :| 0 <= k < |gs| && gs[k] == ys[i];
  }

  /** Years are written out in strictly descending text order, whenever the
      years are made of characters above `,` (as digits are). */
  lemma {:induction false} LayoutYearsDescending(items: seq<Item>)
    requires forall j :: 0 <= j < |items| ==> PlainYear(ItemYear(items[j]))
    ensures forall i, j :: 0 <= i < j < |Layout(items)| ==> LexLess(Layout(items)[j].year, Layout(items)[i].year)
  {
    var gs := Groups(items);
    GroupsWellGrouped(items);
    GroupYearsFromItems(items);
    forall i | 0 <= i < |gs|
      ensures PlainYear(gs[i].year)
    {
      var j :| 0 <= j < |items| && ItemYear(items[j]) == gs[i].year;
    }
    SortYearsDescending(gs);
  }

  /** Each year holds exactly the entries of that year, in descending date
      order, and entries of equal date keep their order of discovery. */
  lemma {:induction false} LayoutGroupContents(items: seq<Item>, i: int, d: string)
    requires 0 <= i < |Layout(items)|
    ensures multiset(Layout(items)[i].items) == multiset(WithKey(items, ItemYear, Layout(items)[i].year))
    ensures SortedBy(Layout(items)[i].items, ItemDate, true)
    ensures WithKey(Layout(items)[i].items, ItemDate, d)
         == WithKey(WithKey(items, ItemYear, Layout(items)[i].year), ItemDate, d)
  {
    var k := LayoutAt(items, i);
    var g := Groups(items)[k];
    GroupsWellGrouped(items);
    assert g.items == WithKey(items, ItemYear, g.year);
    SortPermutes(g.items, ItemDate, true);
    SortSorted(g.items, ItemDate, true);
    SortStable(g.items, ItemDate, true, d);
  }

  /** Every group of the `Map` is a group of the layout. */
  lemma {:induction false} LayoutHas(items: seq<Item>, k: int) returns (i: int)
    requires 0 <= k < |Groups(items)|
    ensures 0 <= i < |Layout(items)| && Layout(items)[i].year == Groups(items)[k].year
  {
    var gs := Groups(items);
    var s := SortBy(gs, YearKey, false);
    var ys := Reverse(s);
    assert SortYears(gs) == ys;
    var lay := Layout(items);
    assert lay == Arrange(ys);
    SortPermutes(gs, YearKey, false);
    assert gs[k] in multiset(s);
    var p :| 0 <= p < |s| && s[p] == gs[k];
    i := |s| - 1 - p;
    ReverseAt(s, i);
    assert ys[i] == s[p];
    assert lay[i].year == ys[i].year;
  }

  lemma {:induction false} LayoutYearOfItem(items: seq<Item>, j: int) returns (i: int)
    requires 0 <= j < |items|
    ensures 0 <= i < |Layout(items)| && Layout(items)[i].year == ItemYear(items[j])
  {
    var gs := Groups(items);
    GroupsWellGrouped(items);
    assert Covers(gs, items);
    var k :| 0 <= k < |gs| && gs[k].year == ItemYear(items[j]);
    i := LayoutHas(items, k);
  }

  lemma {:induction false} LayoutYearHasItem(items: seq<Item>, i: int) returns (j: int)
    requires 0 <= i < |Layout(items)|
    ensures 0 <= j < |items| && ItemYear(items[j]) == Layout(items)[i].year
  {
    var gs := Groups(items);
    GroupYearsFromItems(items);
    var k := LayoutAt(items, i);
    j :| 0 <= j < |items| && ItemYear(items[j]) == gs[k].year;
  }

  /** Every year of an entry has a group in the layout, and no other year. */
  lemma {:induction false} LayoutYears(items: seq<Item>, y: string)
    ensures (exists i :: 0 <= i < |Layout(items)| && Layout(items)[i].year == y)
        <==> (exists j :: 0 <= j < |items| && ItemYear(items[j]) == y)
  {
    if exists i :: 0 <= i < |Layout(items)| && Layout(items)[i].year == y {
      var i :| 0 <= i < |Layout(items)| && Layout(items)[i].year == y;
      var j := LayoutYearHasItem(items, i);
    }
    if exists j :: 0 <= j < |items| && ItemYear(items[j]) == y {
      var j :| 0 <= j < |items| && ItemYear(items[j]) == y;
      var i := LayoutYearOfItem(items, j);
    }
  }

  /** Every entry is written out exactly once. */
  lemma {:induction false} LayoutPermutes(items: seq<Item>)
    ensures multiset(Flatten(Layout(items))) == multiset(items)
  {
    var gs := Groups(items);
    var ys := SortYears(gs);
    var l := Layout(items);
    GroupsPermutes(items);
    FlattenSort(gs, YearKey, false);
    FlattenReverse(SortBy(gs, YearKey, false));
    forall i | 0 <= i < |l|
      ensures multiset(l[i].items) == multiset(ys[i].items)
    {
      SortPermutes(ys[i].items, ItemDate, true);
    }
    FlattenPointwise(l, ys);
  }

  /** The bullets of a year, in order: the `articles +=` loop. */
  function BulletsText(items: seq<Item>): string
    decreases |items|
  {
    if |items| == 0 then "" else BulletsText(items[..|items| - 1]) + items[|items| - 1].bullet
  }

  const YearSetOpen := "<div class=\"article-year-set\">\n            <div class=\"article-year\">\n                <p>"
  const YearSetMid := "</p>\n            </div>\n            <div class=\"article-bullets\">\n                <ul class=\"article-list\">\n                    "
  const YearSetClose := "\n                </ul> \n            </div>\n            <div class=\"article-spacer\">\n            </div>\n        </div>"

  /** The markup of one year: the year, then its bullets in a list. */
  function YearSet(year: string, articles: string): string
  {
    YearSetOpen + year + YearSetMid + articles + YearSetClose
  }

  /** The `yearsArticles +=` loop over the sorted years. */
  function YearsMarkup(gs: seq<Group>): string
    decreases |gs|
  {
    if |gs| == 0 then "" else YearsMarkup(gs[..|gs| - 1]) + YearSet(gs[|gs| - 1].year, BulletsText(gs[|gs| - 1].items))
  }

  /** What replaces `{{ articles }}`: the markup of the ordered years, or the
      error that stops the build. */
  function HomepageMarkup(arts: seq<Article>, parse: DateParser, m: Markup, contentDir: string): Result<string, BuildError>
  {
    var items :- Items(arts, parse, m, contentDir);
    Ok(YearsMarkup(Layout(items)))
  }

  lemma {:induction false} BulletsTextShows(items: seq<Item>, it: Item)
    requires it in items
    ensures Includes(BulletsText(items), it.bullet)
    decreases |items|
  {
    var init := items[..|items| - 1];
    var last := items[|items| - 1];
    FrontLast(items);
    if it == last {
      IncludesSelf(it.bullet);
      IncludesConcat(BulletsText(init), last.bullet, it.bullet);
    } else {
      BulletsTextShows(init, it);
      IncludesConcat(BulletsText(init), last.bullet, it.bullet);
    }
  }

  lemma {:induction false} YearSetShows(year: string, items: seq<Item>, it: Item)
    requires it in items
    ensures Includes(YearSet(year, BulletsText(items)), year)
    ensures Includes(YearSet(year, BulletsText(items)), it.bullet)
  {
    var b := BulletsText(items);
    BulletsTextShows(items, it);
    Regroup3(YearSetOpen + year, YearSetMid, b, YearSetClose);
    IncludesMiddle(YearSetOpen, year, YearSetMid + b + YearSetClose);
    IncludesConcat(YearSetOpen + year + YearSetMid, b, it.bullet);
    IncludesConcat(YearSetOpen + year + YearSetMid + b, YearSetClose, it.bullet);
  }

  /** The markup shows every year with each of its bullets. */
  lemma {:induction false} YearsMarkupShows(gs: seq<Group>, i: int, it: Item)
    requires 0 <= i < |gs| && it in gs[i].items
    ensures Includes(YearsMarkup(gs), gs[i].year)
    ensures Includes(YearsMarkup(gs), it.bullet)
    decreases |gs|
  {
    var init := gs[..|gs| - 1];
    var last := gs[|gs| - 1];
    var y := YearSet(last.year, BulletsText(last.items));
    if i == |gs| - 1 {
      YearSetShows(last.year, last.items, it);
    } else {
      assert init[i] == gs[i];
      YearsMarkupShows(init, i, it);
    }
    IncludesConcat(YearsMarkup(init), y, gs[i].year);
    IncludesConcat(YearsMarkup(init), y, it.bullet);
  }

  lemma {:induction false} FlattenMember(gs: seq<Group>, it: Item) returns (i: int)
    requires it in Flatten(gs)
    ensures 0 <= i < |gs| && it in gs[i].items
    decreases |gs|
  {
    var init := gs[..|gs| - 1];
    if it in gs[|gs| - 1].items {
      i := |gs| - 1;
    } else {
      i := FlattenMember(init, it);
      assert gs[i] == init[i];
    }
  }

  /** The homepage shows the bullet of every entry. */
  lemma {:induction false} IndexShowsEveryEntry(items: seq<Item>, it: Item)
    requires it in items
    ensures Includes(YearsMarkup(Layout(items)), it.bullet)
  {
    LayoutPermutes(items);
    assert it in multiset(Flatten(Layout(items)));
    var i := FlattenMember(Layout(items), it);
    YearsMarkupShows(Layout(items), i, it);
  }

  /** The loop over the first `n + 1` articles is the loop over the first `n`
      and one more pass. */
  lemma {:induction false} ItemsSnoc(arts: seq<Article>, n: int, parse: DateParser, m: Markup, contentDir: string)
    requires 0 <= n < |arts|
    requires Items(arts[..n], parse, m, contentDir).Ok?
    ensures ItemOf(arts[n], parse, m, contentDir).Err? ==>
              Items(arts[..n + 1], parse, m, contentDir) == Err(ItemOf(arts[n], parse, m, contentDir).error)
    ensures ItemOf(arts[n], parse, m, contentDir).Ok? ==>
              var e := ItemOf(arts[n], parse, m, contentDir).value;
              Items(arts[..n + 1], parse, m, contentDir)
              == Ok(Items(arts[..n], parse, m, contentDir).value + (if e.Some? then [e.value] else []))
  {
    assert arts[..n + 1] == arts[..n] + [arts[n]];
    CollectSnoc(arts[..n], arts[n], a => ItemOf(a, parse, m, contentDir));
  }

  lemma {:induction false} ItemsStepSome(arts: seq<Article>, n: int, parse: DateParser, m: Markup, contentDir: string, items: seq<Item>, it: Item)
    requires 0 <= n < |arts|
    requires Items(arts[..n], parse, m, contentDir) == Ok(items)
    requires ItemOf(arts[n], parse, m, contentDir) == Ok(Some(it))
    ensures Items(arts[..n + 1], parse, m, contentDir) == Ok(items + [it])
  {
    ItemsSnoc(arts, n, parse, m, contentDir);
  }

  lemma {:induction false} ItemsStepNone(arts: seq<Article>, n: int, parse: DateParser, m: Markup, contentDir: string, items: seq<Item>)
    requires 0 <= n < |arts|
    requires Items(arts[..n], parse, m, contentDir) == Ok(items)
    requires ItemOf(arts[n], parse, m, contentDir) == Ok(None)
    ensures Items(arts[..n + 1], parse, m, contentDir) == Ok(items)
  {
    ItemsSnoc(arts, n, parse, m, contentDir);
    assert items + [] == items;
  }

  lemma {:induction false} ItemsStepErr(arts: seq<Article>, n: int, parse: DateParser, m: Markup, contentDir: string, items: seq<Item>, e: BuildError)
    requires 0 <= n < |arts|
    requires Items(arts[..n], parse, m, contentDir) == Ok(items)
    requires ItemOf(arts[n], parse, m, contentDir) == Err(e)
    ensures Items(arts, parse, m, contentDir) == Err(e)
  {
    ItemsSnoc(arts, n, parse, m, contentDir);
    ItemsPrefixErr(arts, n + 1, parse, m, contentDir);
  }

  lemma {:induction false} ItemsPrefixErr(arts: seq<Article>, n: int, parse: DateParser, m: Markup, contentDir: string)
    requires 0 <= n <= |arts|
    requires Items(arts[..n], parse, m, contentDir).Err?
    ensures Items(arts, parse, m, contentDir) == Items(arts[..n], parse, m, contentDir)
  {
    CollectPrefixErr(arts, n, a => ItemOf(a, parse, m, contentDir));
  }

  lemma {:induction false} YearsMarkupSnoc(gs: seq<Group>, i: int)
    requires 0 <= i < |gs|
    ensures YearsMarkup(gs[..i + 1]) == YearsMarkup(gs[..i]) + YearSet(gs[i].year, BulletsText(gs[i].items))
  {
    assert gs[..i + 1][..i] == gs[..i];
  }

  lemma {:induction false} BulletsTextSnoc(items: seq<Item>, j: int)
    requires 0 <= j < |items|
    ensures BulletsText(items[..j + 1]) == BulletsText(items[..j]) + items[j].bullet
  {
    assert items[..j + 1][..j] == items[..j];
  }

  /** The grouping loop of `createHomepage` (index.ts) or `addArticles`
      (index.js), over each article's `ItemOf`: `about` is skipped, the first
      article without a usable published date stops the loop, and every
      other entry is pushed onto its year's list or starts a new year at the
      end of the `Map`. */
  method GroupArticles(arts: seq<Article>, parse: DateParser, m: Markup, contentDir: string)
    returns (r: Result<seq<Group>, BuildError>, ghost items: seq<Item>)
    ensures r.Err? ==> Items(arts, parse, m, contentDir) == Err(r.error)
    ensures r.Ok? ==> Items(arts, parse, m, contentDir) == Ok(items) && r.value == Groups(items)
  {
    var groups: seq<Group> := [];
    items := [];
    var n := 0;
    while n < |arts|
      invariant 0 <= n <= |arts|
      invariant Items(arts[..n], parse, m, contentDir) == Ok(items)
      invariant groups == Groups(items)
    {
      var entry := ItemOf(arts[n], parse, m, contentDir);
      if entry.Err? {
        ItemsStepErr(arts, n, parse, m, contentDir, items, entry.error);
        return Err(entry.error), items;
      }
      if entry.value.Some? {
        var it := entry.value.value;
        var year := ItemYear(it);
        var k := FindYear(groups, year);
        ItemsStepSome(arts, n, parse, m, contentDir, items, it);
        GroupsSnoc(items, it);
        if k >= 0 {
          groups := groups[k := Group(year, groups[k].items + [it])];
        } else {
          groups := groups + [Group(year, [it])];
        }
        items := items + [it];
      } else {
        ItemsStepNone(arts, n, parse, m, contentDir, items);
      }
      assert Items(arts[..n + 1], parse, m, contentDir) == Ok(items);
      n := n + 1;
    }
    assert arts[..n] == arts;
    r := Ok(groups);
  }

  /** The bullets of one year: its entries copied out and sorted in place by
      descending date, then concatenated. */
  method RenderYear(g: Group) returns (articles: string)
    ensures articles == BulletsText(SortBy(g.items, ItemDate, true))
  {
    var ba := new Item[|g.items|](j requires 0 <= j < |g.items| => g.items[j]);
    assert ba[..] == g.items;
    SortInPlace(ba, ItemDate, true);
    ghost var sorted := ba[..];
    articles := "";
    var j := 0;
    while j < ba.Length
      invariant 0 <= j <= ba.Length
      invariant ba[..] == sorted
      invariant articles == BulletsText(ba[..j])
    {
      BulletsTextSnoc(ba[..], j);
      articles := articles + ba[j].bullet;
      j := j + 1;
    }
    assert ba[..j] == ba[..];
  }

  /** The markup of the ordered years: the entries of the `Map` copied out,
      sorted and reversed in place, then each year written out in turn. */
  method RenderYears(groups: seq<Group>, ghost items: seq<Item>) returns (markup: string)
    requires groups == Groups(items)
    ensures markup == YearsMarkup(Layout(items))
  {
    var ga := new Group[|groups|](i requires 0 <= i < |groups| => groups[i]);
    assert ga[..] == groups;
    SortInPlace(ga, YearKey, false);
    ReverseInPlace(ga);
    markup := WriteYears(ga);
  }

  /** The `yearsArticles +=` loop over the sorted years. */
  method WriteYears(ga: array<Group>) returns (markup: string)
    ensures markup == YearsMarkup(Arrange(ga[..]))
  {
    ghost var layout := Arrange(ga[..]);
    markup := "";
    var i := 0;
    while i < ga.Length
      invariant 0 <= i <= ga.Length == |layout|
      invariant markup == YearsMarkup(layout[..i])
    {
      var g := ga[i];
      var articles := RenderYear(g);
      YearsMarkupSnoc(layout, i);
      markup := markup + YearSet(g.year, articles);
      i := i + 1;
    }
    assert layout[..i] == layout;
  }

  /** The year index of the homepage, as the source computes it. */
  method BuildIndex(arts: seq<Article>, parse: DateParser, m: Markup, contentDir: string) returns (r: Result<string, BuildError>)
    ensures r == HomepageMarkup(arts, parse, m, contentDir)
  {
    var grouped, items := GroupArticles(arts, parse, m, contentDir);
    if grouped.Err? {
      return Err(grouped.error);
    }
    var markup := RenderYears(grouped.value, items);
    r := Ok(markup);
  }
}
