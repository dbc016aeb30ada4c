/** The year index of the homepage before it becomes markup (index.ts lines
    260-281, index.js lines 187-200): entries grouped by the year of their
    published date in a JavaScript `Map`, which keeps its years in the order
    they were first seen; the years sorted with the default comparison of
    `Array.prototype.sort` and reversed. */
module Grouping {
  import opened JsString
  import opened Sorting

  /** One homepage entry: its published date and its bullet markup. */
  datatype Item = Item(published: string, bullet: string)

  /** One entry of the `Map` from year to entries. */
  datatype Group = Group(year: string, items: seq<Item>)

  /** `pubDate.split("-")[0]`: the text before the first `-`. */
  function YearOf(published: string): (r: string)
    ensures r == Split(published, "-")[0]
  {
    SplitHead(published, "-");
    Before(published, "-")
  }

  /** The year of `2024-05-01` is `2024`. */
  lemma {:induction false} YearOfIsoDate(y: string, rest: string)
    requires !('-' in y)
    ensures YearOf(y + "-" + rest) == y
  {
    NoOccurrenceInside(y, "-", rest);
    FirstOccurrenceAfter(y, "-", rest);
  }

  function ItemYear(it: Item): string
  {
    YearOf(it.published)
  }

  function ItemDate(it: Item): string
  {
    it.published
  }

  /** `articlesPerYear.has(y)` and the entry `get` returns: the index of the
      group of year `y`, or -1. */
  function FindYear(gs: seq<Group>, y: string): (r: int)
    ensures -1 <= r < |gs|
    ensures r >= 0 ==> gs[r].year == y
    ensures r < 0 ==> forall j :: 0 <= j < |gs| ==> gs[j].year != y
    decreases |gs|
  {
    if |gs| == 0 then -1
    else if gs[|gs| - 1].year == y then |gs| - 1
    else FindYear(gs[..|gs| - 1], y)
  }

  /** One step of the grouping loop: `push` onto the year's entry when it
      exists, `set` a new entry at the end of the `Map` otherwise. */
  function AddItem(gs: seq<Group>, it: Item): seq<Group>
  {
    var y := ItemYear(it);
    var k := FindYear(gs, y);
    if k < 0 then gs + [Group(y, [it])]
    else gs[k := Group(y, gs[k].items + [it])]
  }

  /** The `Map` after the grouping loop over `items`. */
  function Groups(items: seq<Item>): seq<Group>
    decreases |items|
  {
    if |items| == 0 then [] else AddItem(Groups(items[..|items| - 1]), items[|items| - 1])
  }

  /** All entries of the groups, group after group. */
  function Flatten(gs: seq<Group>): seq<Item>
    decreases |gs|
  {
    if |gs| == 0 then [] else Flatten(gs[..|gs| - 1]) + gs[|gs| - 1].items
  }

  predicate DistinctYears(gs: seq<Group>)
  {
    forall i, j :: 0 <= i < j < |gs| ==> gs[i].year != gs[j].year
  }

  /** What the grouping loop maintains: one group per year, each holding
      exactly the entries of its year in their original order, and every
      entry's year present. */
  predicate WellGrouped(gs: seq<Group>, items: seq<Item>)
  {
    DistinctYears(gs) && Matches(gs, items) && NonEmptyGroups(gs) && Covers(gs, items)
  }

  /** Each group holds exactly the entries of its year, in their order. */
  predicate Matches(gs: seq<Group>, items: seq<Item>)
  {
    forall i :: 0 <= i < |gs| ==> gs[i].items == WithKey(items, ItemYear, gs[i].year)
  }

  predicate NonEmptyGroups(gs: seq<Group>)
  {
    forall i :: 0 <= i < |gs| ==> |gs[i].items| > 0
  }

  /** Every entry's year has a group. */
  predicate Covers(gs: seq<Group>, items: seq<Item>)
  {
    forall j :: 0 <= j < |items| ==> exists i :: 0 <= i < |gs| && gs[i].year == ItemYear(items[j])
  }

  /** The group that covers entry `j`. */
  lemma {:induction false} CoverOf(gs: seq<Group>, items: seq<Item>, j: int) returns (i: int)
    requires Covers(gs, items) && 0 <= j < |items|
    ensures 0 <= i < |gs| && gs[i].year == ItemYear(items[j])
  {
    var it := items[j];
    assert exists k :: 0 <= k < |gs| && gs[k].year == ItemYear(it);
    i :| 0 <= i < |gs| && gs[i].year == ItemYear(it);
  }

  lemma {:induction false} WithKeySnoc(items: seq<Item>, it: Item, y: string)
    ensures WithKey(items + [it], ItemYear, y)
         == WithKey(items, ItemYear, y) + (if ItemYear(it) == y then [it] else [])
  {
    assert (items + [it])[..|items|] == items;
  }

  /** Without an entry of year `y`, the entries of year `y` are none. */
  lemma {:induction false} WithKeyAbsent(items: seq<Item>, y: string)
    requires forall j :: 0 <= j < |items| ==> ItemYear(items[j]) != y
    ensures WithKey(items, ItemYear, y) == []
    decreases |items|
  {
    if |items| > 0 {
      WithKeyAbsent(items[..|items| - 1], y);
    }
  }

  /** Groups that keep their years, and one that has the new entry's year,
      still cover every entry. */
  lemma {:induction false} CoversSnoc(gs: seq<Group>, items: seq<Item>, it: Item, r: seq<Group>, k: int)
    requires Covers(gs, items)
    requires |gs| <= |r| && forall i :: 0 <= i < |gs| ==> r[i].year == gs[i].year
    requires 0 <= k < |r| && r[k].year == ItemYear(it)
    ensures Covers(r, items + [it])
  {
    forall j | 0 <= j < |items + [it]|
      ensures exists i :: 0 <= i < |r| && r[i].year == ItemYear((items + [it])[j])
    {
      if j < |items| {
        var i := CoverOf(gs, items, j);
        assert r[i].year == ItemYear((items + [it])[j]);
      } else {
        assert r[k].year == ItemYear((items + [it])[j]);
      }
    }
  }

  /** A group of another year is not affected by the new entry. */
  lemma {:induction false} OtherYearKept(g: Group, items: seq<Item>, it: Item)
    requires g.items == WithKey(items, ItemYear, g.year) && g.year != ItemYear(it)
    ensures g.items == WithKey(items + [it], ItemYear, g.year)
  {
    WithKeySnoc(items, it, g.year);
  }

  /** A year without a group is the year of no entry. */
  lemma {:induction false} UncoveredYear(gs: seq<Group>, items: seq<Item>, y: string)
    requires Covers(gs, items)
    requires forall i :: 0 <= i < |gs| ==> gs[i].year != y
    ensures WithKey(items, ItemYear, y) == []
  {
    forall j | 0 <= j < |items|
      ensures ItemYear(items[j]) != y
    {
      var i := CoverOf(gs, items, j);
      assert gs[i].year != y;
    }
    WithKeyAbsent(items, y);
  }

  lemma {:induction false} MatchesAppend(gs: seq<Group>, items: seq<Item>, it: Item, r: seq<Group>)
    requires Matches(gs, items)
    requires forall i :: 0 <= i < |gs| ==> gs[i].year != ItemYear(it)
    requires WithKey(items, ItemYear, ItemYear(it)) == []
    requires r == gs + [Group(ItemYear(it), [it])]
    ensures Matches(r, items + [it])
  {
    WithKeySnoc(items, it, ItemYear(it));
    forall i | 0 <= i < |r|
      ensures r[i].items == WithKey(items + [it], ItemYear, r[i].year)
    {
      if i < |gs| {
        OtherYearKept(gs[i], items, it);
      }
    }
  }

  /** Adding an entry of a year not seen yet opens a group at the end. */
  lemma {:induction false} AddItemNew(gs: seq<Group>, items: seq<Item>, it: Item, r: seq<Group>)
    requires WellGrouped(gs, items)
    requires forall i :: 0 <= i < |gs| ==> gs[i].year != ItemYear(it)
    requires r == gs + [Group(ItemYear(it), [it])]
    ensures WellGrouped(r, items + [it])
  {
    UncoveredYear(gs, items, ItemYear(it));
    MatchesAppend(gs, items, it, r);
    CoversSnoc(gs, items, it, r, |gs|);
  }

  /** Adding an entry of a year already seen appends it to that group. */
  lemma {:induction false} AddItemExisting(gs: seq<Group>, items: seq<Item>, it: Item, k: int, r: seq<Group>)
    requires WellGrouped(gs, items)
    requires 0 <= k < |gs| && gs[k].year == ItemYear(it)
    requires r == gs[k := Group(ItemYear(it), gs[k].items + [it])]
    ensures WellGrouped(r, items + [it])
  {
    var y := ItemYear(it);
    forall i | 0 <= i < |r|
      ensures r[i].items == WithKey(items + [it], ItemYear, r[i].year)
    {
      if i == k {
        WithKeySnoc(items, it, y);
      } else {
        OtherYearKept(gs[i], items, it);
      }
    }
    CoversSnoc(gs, items, it, r, k);
  }

  /** The grouping loop ends with one group per year holding exactly that
      year's entries in input order, and every entry's year present. */
  lemma {:induction false} GroupsWellGrouped(items: seq<Item>)
    ensures WellGrouped(Groups(items), items)
    decreases |items|
  {
    if |items| > 0 {
      var init := items[..|items| - 1];
      var it := items[|items| - 1];
      var gs := Groups(init);
      GroupsWellGrouped(init);
      FrontLast(items);
      var k := FindYear(gs, ItemYear(it));
      if k < 0 {
        AddItemNew(gs, init, it, AddItem(gs, it));
      } else {
        AddItemExisting(gs, init, it, k, AddItem(gs, it));
      }
    }
  }

  /** Every group's year is the year of one of the entries. */
  lemma {:induction false} GroupYearsFromItems(items: seq<Item>)
    ensures forall i :: 0 <= i < |Groups(items)| ==>
              exists j :: 0 <= j < |items| && ItemYear(items[j]) == Groups(items)[i].year
  {
    var gs := Groups(items);
    GroupsWellGrouped(items);
    forall i | 0 <= i < |gs|
      ensures exists j :: 0 <= j < |items| && ItemYear(items[j]) == gs[i].year
    {
      var y := gs[i].year;
      var x := gs[i].items[0];
      WithKeyMember(items, ItemYear, y, x);
      var j :| 0 <= j < |items| && items[j] == x;
    }
  }

  lemma {:induction false} FlattenConcat(a: seq<Group>, b: seq<Group>)
    ensures Flatten(a + b) == Flatten(a) + Flatten(b)
    decreases |b|
  {
    if |b| == 0 {
      assert a + b == a;
    } else {
      var b0 := b[..|b| - 1];
      assert (a + b)[..|a + b| - 1] == a + b0;
      FlattenConcat(a, b0);
    }
  }

  /** The entries of the groups around the group at `k`. */
  lemma {:induction false} FlattenAround(gs: seq<Group>, k: int)
    requires 0 <= k < |gs|
    ensures Flatten(gs) == Flatten(gs[..k]) + gs[k].items + Flatten(gs[k + 1..])
  {
    assert gs == gs[..k] + [gs[k]] + gs[k + 1..];
    FlattenConcat(gs[..k] + [gs[k]], gs[k + 1..]);
    FlattenConcat(gs[..k], [gs[k]]);
    assert [gs[k]][..0] == [];
  }

  /** Appending an entry to the group at `k` adds it to the entries. */
  lemma {:induction false} AppendToGroupPermutes(gs: seq<Group>, k: int, it: Item)
    requires 0 <= k < |gs|
    ensures multiset(Flatten(gs[k := Group(gs[k].year, gs[k].items + [it])])) == multiset(Flatten(gs)) + multiset{it}
  {
    var r := gs[k := Group(gs[k].year, gs[k].items + [it])];
    FlattenAround(gs, k);
    FlattenAround(r, k);
    assert r[..k] == gs[..k];
    assert r[k + 1..] == gs[k + 1..];
    var a, b, c := Flatten(gs[..k]), gs[k].items, Flatten(gs[k + 1..]);
    assert Flatten(r) == a + (b + [it]) + c;
    assert multiset(Flatten(r)) == multiset(a) + multiset(b) + multiset{it} + multiset(c);
  }

  /** Each step of the grouping loop keeps every entry exactly once. */
  lemma {:induction false} AddItemPermutes(gs: seq<Group>, it: Item)
    ensures multiset(Flatten(AddItem(gs, it))) == multiset(Flatten(gs)) + multiset{it}
  {
    var y := ItemYear(it);
    var k := FindYear(gs, y);
    if k < 0 {
      FlattenConcat(gs, [Group(y, [it])]);
      assert [Group(y, [it])][..0] == [];
    } else {
      AppendToGroupPermutes(gs, k, it);
    }
  }

  /** Grouping loses and duplicates no entry. */
  lemma {:induction false} GroupsPermutes(items: seq<Item>)
    ensures multiset(Flatten(Groups(items))) == multiset(items)
    decreases |items|
  {
    if |items| > 0 {
      var init := items[..|items| - 1];
      var last := items[|items| - 1];
      GroupsPermutes(init);
      AddItemPermutes(Groups(init), last);
      FrontLast(items);
    }
  }

  /** One more entry is one more step of the grouping loop. */
  lemma {:induction false} GroupsSnoc(items: seq<Item>, it: Item)
    ensures Groups(items + [it]) == AddItem(Groups(items), it)
  {
    assert (items + [it])[..|items|] == items;
    assert (items + [it])[|items|] == it;
  }

  function GroupYear(g: Group): string
  {
    g.year
  }

  /** `[...articlesPerYear].sort()` compares the entries `[year, items]` as
      the strings JavaScript makes of them: the year, a comma, and one
      `[object Object]` per entry, comma-separated. */
  function YearKey(g: Group): string
  {
    g.year + "," + Join(seq(|g.items|, i => "[object Object]"), ",")
  }

  /** `new Map([...articlesPerYear].sort().reverse())`. */
  function SortYears(gs: seq<Group>): seq<Group>
  {
    Reverse(SortBy(gs, YearKey, false))
  }

  /** A year made of characters above `,` (digits, say) is compared as text. */
  predicate PlainYear(y: string)
  {
    forall k :: 0 <= k < |y| ==> ',' < y[k]
  }

  /** A comma after two distinct plain years does not change their order. */
  lemma {:induction false} KeyOrder(a: string, b: string, x: string, y: string)
    requires a != b && PlainYear(a) && PlainYear(b)
    ensures LexLess(a + "," + x, b + "," + y) <==> LexLess(a, b)
    decreases |a|
  {
    var p := a + "," + x;
    var q := b + "," + y;
    if |a| == 0 {
      assert p[0] == ',' && q[0] == b[0];
    } else if |b| == 0 {
      assert p[0] == a[0] && q[0] == ',';
    } else if a[0] != b[0] {
      assert p[0] == a[0] && q[0] == b[0];
    } else {
      assert p[0] == q[0];
      assert p[1..] == a[1..] + "," + x;
      assert q[1..] == b[1..] + "," + y;
      assert a == [a[0]] + a[1..] && b == [b[0]] + b[1..];
      KeyOrder(a[1..], b[1..], x, y);
    }
  }

  /** The default sort then `reverse` puts distinct plain years in strictly
      descending text order. */
  lemma {:induction false} SortYearsDescending(gs: seq<Group>)
    requires DistinctYears(gs)
    requires forall i :: 0 <= i < |gs| ==> PlainYear(gs[i].year)
    ensures forall i, j :: 0 <= i < j < |SortYears(gs)| ==> LexLess(SortYears(gs)[j].year, SortYears(gs)[i].year)
  {
    var s := SortBy(gs, YearKey, false);
    var r := SortYears(gs);
    SortSorted(gs, YearKey, false);
    SortPermutes(gs, YearKey, false);
    assert DistinctBy(gs, GroupYear);
    SortDistinct(gs, YearKey, false, GroupYear);
    forall i | 0 <= i < |s|
      ensures PlainYear(s[i].year)
    {
      assert s[i] in multiset(gs);
      var k :| 0 <= k < |gs| && gs[k] == s[i];
    }
    forall i, j | 0 <= i < j < |s|
      ensures LexLess(s[i].year, s[j].year)
    {
      KeyOrder(s[j].year, s[i].year, Join(seq(|s[j].items|, k => "[object Object]"), ","),
                                     Join(seq(|s[i].items|, k => "[object Object]"), ","));
      LexLessTotal(s[i].year, s[j].year);
    }
    forall i, j | 0 <= i < j < |r|
      ensures LexLess(r[j].year, r[i].year)
    {
      ReverseAt(s, i);
      ReverseAt(s, j);
    }
  }

  /** Inserting a group adds its entries. */
  lemma {:induction false} FlattenInsert(s: seq<Group>, x: Group, key: Group -> string, descending: bool)
    ensures multiset(Flatten(Insert(s, x, key, descending))) == multiset(Flatten(s)) + multiset(x.items)
    decreases |s|
  {
    if |s| > 0 && Precedes(key(x), key(s[|s| - 1]), descending) {
      var init := s[..|s| - 1];
      var last := s[|s| - 1];
      FlattenInsert(init, x, key, descending);
      FlattenConcat(Insert(init, x, key, descending), [last]);
      FlattenConcat(init, [last]);
      FrontLast(s);
      assert [last][..0] == [];
    } else {
      FlattenConcat(s, [x]);
      assert [x][..0] == [];
    }
  }

  /** Sorting the groups keeps every entry exactly once. */
  lemma {:induction false} FlattenSort(s: seq<Group>, key: Group -> string, descending: bool)
    ensures multiset(Flatten(SortBy(s, key, descending))) == multiset(Flatten(s))
    decreases |s|
  {
    if |s| > 0 {
      var init := s[..|s| - 1];
      FlattenSort(init, key, descending);
      FlattenInsert(SortBy(init, key, descending), s[|s| - 1], key, descending);
    }
  }

  /** Reversing the groups keeps every entry exactly once. */
  lemma {:induction false} FlattenReverse(s: seq<Group>)
    ensures multiset(Flatten(Reverse(s))) == multiset(Flatten(s))
    decreases |s|
  {
    if |s| > 0 {
      var init := s[..|s| - 1];
      var last := s[|s| - 1];
      FlattenReverse(init);
      FlattenConcat([last], Reverse(init));
      assert [last][..0] == [];
    }
  }

  /** Groups whose entries agree as multisets, place by place, have the
      same entries overall. */
  lemma {:induction false} FlattenPointwise(a: seq<Group>, b: seq<Group>)
    requires |a| == |b|
    requires forall i :: 0 <= i < |a| ==> multiset(a[i].items) == multiset(b[i].items)
    ensures multiset(Flatten(a)) == multiset(Flatten(b))
    decreases |a|
  {
    if |a| > 0 {
      FlattenPointwise(a[..|a| - 1], b[..|b| - 1]);
    }
  }
}
