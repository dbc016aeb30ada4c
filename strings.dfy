/** The JavaScript string operations the generator is built from:
    `indexOf`/`includes`, `endsWith`, `split`/`join` with a non-empty
    separator, `trim`, `replace` with a string pattern, `replaceAll` of one
    character, ASCII case mapping and `<` on strings. */
module JsString {

  /** `d` occurs in `s` starting at index `i`. */
  predicate OccursAt(s: string, d: string, i: int)
  {
    0 <= i && i + |d| <= |s| && s[i..i + |d|] == d
  }

  lemma {:induction false} OccursAtTail(s: string, d: string, j: int)
    requires 1 <= j && |s| >= 1
    ensures OccursAt(s, d, j) == OccursAt(s[1..], d, j - 1)
  {
    if j + |d| <= |s| {
      var x := s[j..j + |d|];
      var y := s[1..][j - 1..j - 1 + |d|];
      assert |x| == |y|;
      forall k | 0 <= k < |x|
        ensures x[k] == y[k]
      {
        assert x[k] == s[j + k];
        assert y[k] == s[1..][j - 1 + k];
      }
      assert x == y;
    }
  }

  /** `s.indexOf(d)`: the first index at which `d` occurs, or -1. */
  function IndexOf(s: string, d: string): (r: int)
    ensures -1 <= r <= |s|
    ensures r >= 0 ==> OccursAt(s, d, r)
    ensures r >= 0 ==> forall j :: 0 <= j < r ==> !OccursAt(s, d, j)
    ensures r < 0 ==> r == -1 && forall j :: !OccursAt(s, d, j)
    decreases |s|
  {
    if |s| < |d| then -1
    else if s[..|d|] == d then 0
    else
      var k := IndexOf(s[1..], d);
      assert forall j :: 1 <= j ==> (OccursAt(s, d, j) <==> OccursAt(s[1..], d, j - 1)) by {
        forall j | 1 <= j { OccursAtTail(s, d, j); }
      }
      assert !OccursAt(s, d, 0);
      if k < 0 then -1 else k + 1
  }

  /** `s.includes(d)`. */
  predicate Includes(s: string, d: string)
  {
    IndexOf(s, d) >= 0
  }

  lemma {:induction false} IncludesMeans(s: string, d: string)
    ensures Includes(s, d) <==> exists i :: OccursAt(s, d, i)
  {
  }

  /** An occurrence in either part is an occurrence in the concatenation. */
  lemma {:induction false} IncludesConcat(a: string, b: string, d: string)
    requires Includes(a, d) || Includes(b, d)
    ensures Includes(a + b, d)
  {
    IncludesMeans(a, d);
    IncludesMeans(b, d);
    IncludesMeans(a + b, d);
    if Includes(a, d) {
      var i :| OccursAt(a, d, i);
      assert (a + b)[i..i + |d|] == a[i..i + |d|];
      assert OccursAt(a + b, d, i);
    } else {
      var i :| OccursAt(b, d, i);
      assert (a + b)[|a| + i..|a| + i + |d|] == b[i..i + |d|];
      assert OccursAt(a + b, d, |a| + i);
    }
  }

  /** A text placed between two others is included in the result. */
  lemma {:induction false} IncludesMiddle(a: string, d: string, b: string)
    ensures Includes(a + d + b, d)
  {
    IncludesSelf(d);
    IncludesConcat(a, d, d);
    IncludesConcat(a + d, b, d);
  }

  /** A text includes itself. */
  lemma {:induction false} IncludesSelf(d: string)
    ensures Includes(d, d)
  {
    assert OccursAt(d, d, 0);
    IncludesMeans(d, d);
  }

  /** A text that includes `t` includes everything `t` includes. */
  lemma {:induction false} IncludesTrans(s: string, t: string, d: string)
    requires Includes(s, t) && Includes(t, d)
    ensures Includes(s, d)
  {
    IncludesMeans(s, t);
    IncludesMeans(t, d);
    IncludesMeans(s, d);
    var i :| OccursAt(s, t, i);
    var j :| OccursAt(t, d, j);
    forall k | 0 <= k < |d|
      ensures s[i + j + k] == d[k]
    {
      assert s[i + j + k] == s[i..i + |t|][j + k];
      assert t[j + k] == t[j..j + |d|][k];
    }
    assert s[i + j..i + j + |d|] == d;
    assert OccursAt(s, d, i + j);
  }

  /** `s.endsWith(suffix)`. */
  predicate EndsWith(s: string, suffix: string)
  {
    |suffix| <= |s| && s[|s| - |suffix|..] == suffix
  }

  /** `parts.join(d)`. */
  function Join(parts: seq<string>, d: string): string
    decreases |parts|
  {
    if |parts| == 0 then ""
    else if |parts| == 1 then parts[0]
    else parts[0] + d + Join(parts[1..], d)
  }

  /** `s.split(d)` for a non-empty separator: the pieces between the
      non-overlapping occurrences of `d`, scanning from the left. */
  function Split(s: string, d: string): (r: seq<string>)
    requires |d| > 0
    ensures |r| >= 1
    decreases |s|
  {
    var i := IndexOf(s, d);
    if i < 0 then [s] else [s[..i]] + Split(s[i + |d|..], d)
  }

  /** Splitting and joining again gives back the input. */
  lemma {:induction false} JoinSplit(s: string, d: string)
    requires |d| > 0
    ensures Join(Split(s, d), d) == s
    decreases |s|
  {
    var i := IndexOf(s, d);
    SplitUnfold(s, d);
    if i >= 0 {
      var t := s[i + |d|..];
      JoinSplit(t, d);
      var rest := Split(t, d);
      JoinCons(s[..i], rest, d);
      assert s == s[..i] + d + t;
    }
  }

  /** Joining a piece in front of at least one more. */
  lemma {:induction false} JoinCons(h: string, rest: seq<string>, d: string)
    requires |rest| >= 1
    ensures Join([h] + rest, d) == h + d + Join(rest, d)
  {
    assert ([h] + rest)[0] == h;
    assert ([h] + rest)[1..] == rest;
  }

  /** No piece of a split contains the separator. */
  lemma {:induction false} SplitPiecesFree(s: string, d: string)
    requires |d| > 0
    ensures forall k :: 0 <= k < |Split(s, d)| ==> !Includes(Split(s, d)[k], d)
    decreases |s|
  {
    var i := IndexOf(s, d);
    if i >= 0 {
      var t := s[i + |d|..];
      SplitPiecesFree(t, d);
      var head := s[..i];
      forall j | 0 <= j
        ensures !OccursAt(head, d, j)
      {
        if OccursAt(head, d, j) {
          assert head[j..j + |d|] == s[j..j + |d|];
          assert OccursAt(s, d, j);
        }
      }
      assert !Includes(head, d);
      var r := Split(s, d);
      assert r == [head] + Split(t, d);
      forall k | 0 <= k < |r|
        ensures !Includes(r[k], d)
      {
        if k > 0 {
          assert r[k] == Split(t, d)[k - 1];
        }
      }
    }
  }

  /** The first piece is the text before the first occurrence, and the rest,
      joined back, is the text after it. */
  lemma {:induction false} SplitFirst(s: string, d: string)
    requires |d| > 0 && Includes(s, d)
    ensures Split(s, d)[0] == s[..IndexOf(s, d)]
    ensures |Split(s, d)| >= 2
    ensures Join(Split(s, d)[1..], d) == s[IndexOf(s, d) + |d|..]
  {
    var i := IndexOf(s, d);
    var t := s[i + |d|..];
    var rest := Split(t, d);
    SplitUnfold(s, d);
    var r := Split(s, d);
    assert r == [s[..i]] + rest;
    assert r[0] == s[..i];
    assert r[1..] == rest;
    JoinSplit(t, d);
  }

  /** A split yields one piece exactly when the separator does not occur. */
  lemma {:induction false} SplitSingle(s: string, d: string)
    requires |d| > 0
    ensures |Split(s, d)| == 1 <==> !Includes(s, d)
    ensures !Includes(s, d) ==> Split(s, d) == [s]
  {
    if Includes(s, d) {
      SplitFirst(s, d);
    }
  }

  /** A one-character separator cannot occur inside text that lacks that character. */
  lemma {:induction false} CharNotIncluded(s: string, c: char)
    requires !(c in s)
    ensures !Includes(s, [c])
  {
    forall i | 0 <= i < |s|
      ensures !OccursAt(s, [c], i)
    {
      assert s[i..i + 1][0] == s[i];
    }
  }

  /** The text before the first `d`, or all of `s` when `d` does not occur. */
  function Before(s: string, d: string): (r: string)
    ensures |r| <= |s| && r == s[..|r|]
  {
    var i := IndexOf(s, d);
    if i < 0 then s else s[..i]
  }

  /** The text after the first `d`, when `d` occurs. */
  function After(s: string, d: string): (r: string)
    requires Includes(s, d)
    ensures |r| <= |s| && r == s[|s| - |r|..]
  {
    s[IndexOf(s, d) + |d|..]
  }

  /** A separator whose first character does not occur in `a` cannot start
      inside `a`. */
  lemma {:induction false} NoOccurrenceInside(a: string, d: string, b: string)
    requires |d| > 0 && !(d[0] in a)
    ensures forall j :: 0 <= j < |a| ==> !OccursAt(a + d + b, d, j)
  {
    var s := a + d + b;
    IncludesMeans(a, d);
    forall j | 0 <= j < |a|
      ensures !OccursAt(s, d, j)
    {
      assert s[j] == a[j];
      if j + |d| <= |s| {
        assert s[j..j + |d|][0] == s[j];
      }
    }
  }

  /** When `a` followed by all but the last character of `d` does not
      include `d`, the `d` after `a` is the first one. */
  lemma {:induction false} NoEarlierOccurrence(a: string, d: string, b: string)
    requires |d| > 0 && !Includes(a + d[..|d| - 1], d)
    ensures forall j :: 0 <= j < |a| ==> !OccursAt(a + d + b, d, j)
  {
    var s := a + d + b;
    var t := a + d[..|d| - 1];
    IncludesMeans(t, d);
    forall j | 0 <= j < |a|
      ensures !OccursAt(s, d, j)
    {
      assert j + |d| <= |t| <= |s|;
      forall k | j <= k < j + |d|
        ensures t[k] == s[k]
      {
        if k < |a| {
          assert t[k] == a[k] == s[k];
        } else {
          assert t[k] == d[k - |a|] == s[k];
        }
      }
      assert t[j..j + |d|] == s[j..j + |d|];
      assert !OccursAt(t, d, j);
    }
  }

  lemma {:induction false} ConcatAssoc(x: string, y: string, z: string)
    ensures x + y + z == x + (y + z)
  {
  }

  /** Regrouping three trailing pieces of a concatenation. */
  lemma {:induction false} Regroup3(p: string, x1: string, x2: string, x3: string)
    ensures p + x1 + x2 + x3 == p + (x1 + x2 + x3)
  {
    ConcatAssoc(p, x1, x2);
    ConcatAssoc(p, x1 + x2, x3);
  }

  /** Regrouping five trailing pieces of a concatenation. */
  lemma {:induction false} Regroup5(p: string, x1: string, x2: string, x3: string, x4: string, x5: string)
    ensures p + x1 + x2 + x3 + x4 + x5 == p + (x1 + x2 + x3 + x4 + x5)
  {
    ConcatAssoc(p, x1, x2);
    ConcatAssoc(p, x1 + x2, x3);
    ConcatAssoc(p, x1 + x2 + x3, x4);
    ConcatAssoc(p, x1 + x2 + x3 + x4, x5);
  }

  /** Regrouping seven trailing pieces of a concatenation. */
  lemma {:induction false} Regroup(p: string, x1: string, x2: string, x3: string, x4: string, x5: string, x6: string, x7: string)
    ensures p + x1 + x2 + x3 + x4 + x5 + x6 + x7 == p + (x1 + x2 + x3 + x4 + x5 + x6 + x7)
  {
    Regroup5(p, x1, x2, x3, x4, x5);
    ConcatAssoc(p, x1 + x2 + x3 + x4 + x5, x6);
    ConcatAssoc(p, x1 + x2 + x3 + x4 + x5 + x6, x7);
  }

  /** Texts that share a prefix and then start differently are different. */
  lemma {:induction false} ApartAfter(p: string, x: string, y: string)
    requires |x| > 0 && |y| > 0 && x[0] != y[0]
    ensures p + x != p + y
  {
    assert (p + x)[|p|] == x[0];
    assert (p + y)[|p|] == y[0];
  }

  /** Texts that differ only in a middle part are different. */
  lemma {:induction false} MiddleDiffers(p: string, x: string, y: string, q: string)
    requires x != y
    ensures p + x + q != p + y + q
  {
    if |x| == |y| {
      assert exists k :: 0 <= k < |x| && x[k] != y[k];
      var k :| 0 <= k < |x| && x[k] != y[k];
      assert (p + x + q)[|p| + k] == x[k];
      assert (p + y + q)[|p| + k] == y[k];
    } else {
      assert |p + x + q| != |p + y + q|;
    }
  }

  /** A text without the first character of `d` has no occurrence of `d`. */
  lemma {:induction false} NoOccurrence(s: string, d: string)
    requires |d| > 0 && !(d[0] in s)
    ensures forall i :: !OccursAt(s, d, i)
  {
    forall i | 0 <= i && i + |d| <= |s|
      ensures !OccursAt(s, d, i)
    {
      assert s[i..i + |d|][0] == s[i];
    }
  }

  /** When no occurrence of `d` starts inside `a`, the first one in
      `a + d + b` is the one right after `a`. */
  lemma {:induction false} FirstOccurrenceAfter(a: string, d: string, b: string)
    requires |d| > 0
    requires forall j :: 0 <= j < |a| ==> !OccursAt(a + d + b, d, j)
    ensures IndexOf(a + d + b, d) == |a|
    ensures Before(a + d + b, d) == a
    ensures Includes(a + d + b, d) && After(a + d + b, d) == b
  {
    var s := a + d + b;
    assert OccursAt(s, d, |a|) by {
      assert s[|a|..|a| + |d|] == d;
    }
    var i := IndexOf(s, d);
    assert i == |a|;
    assert s[..i] == a;
    assert s[i + |d|..] == b;
  }

  /** When `d`'s last character occurs nowhere else in `d`, an occurrence of
      `d` cannot overlap its own start: if `a` does not include `d`, the
      first `d` in `a + d + b` is the one right after `a`. */
  lemma {:induction false} NoOccurrenceBefore(a: string, d: string, b: string)
    requires |d| > 0 && forall k :: 0 <= k < |d| - 1 ==> d[k] != d[|d| - 1]
    requires !Includes(a, d)
    ensures forall j :: 0 <= j < |a| ==> !OccursAt(a + d + b, d, j)
  {
    var s := a + d + b;
    IncludesMeans(a, d);
    forall j | 0 <= j < |a|
      ensures !OccursAt(s, d, j)
    {
      if j + |d| <= |a| {
        assert !OccursAt(a, d, j);
        assert s[j..j + |d|] == a[j..j + |d|];
      } else if j + |d| <= |s| {
        var l := |a| - j;
        assert s[j..j + |d|][|d| - 1] == s[j + |d| - 1] == d[|d| - 1 - l];
        assert d[|d| - 1 - l] != d[|d| - 1];
        assert s[j..j + |d|] != d;
      }
    }
  }

  /** Appending a text shorter than `d` whose first character is not in `d`
      creates no occurrence of `d`. */
  lemma {:induction false} ExtendNotIncluded(a: string, e: string, d: string)
    requires !Includes(a, d) && 0 < |e| < |d| && !(e[0] in d)
    ensures !Includes(a + e, d)
  {
    var s := a + e;
    IncludesMeans(a, d);
    forall j | 0 <= j
      ensures !OccursAt(s, d, j)
    {
      if j + |d| <= |a| {
        assert !OccursAt(a, d, j);
        assert s[j..j + |d|] == a[j..j + |d|];
      } else if j + |d| <= |s| {
        assert s[j..j + |d|][|a| - j] == e[0];
        assert d[|a| - j] in d;
        assert s[j..j + |d|] != d;
      }
    }
    IncludesMeans(s, d);
  }

  /** Texts with different endings of the same length differ. */
  lemma {:induction false} EndsApart(s: string, t: string, x: string, y: string)
    requires EndsWith(s, x) && EndsWith(t, y) && |x| == |y| && x != y
    ensures s != t
  {
  }

  /** The split then starts with `a`. */
  lemma {:induction false} SplitAt(a: string, d: string, b: string)
    requires |d| > 0
    requires forall j :: 0 <= j < |a| ==> !OccursAt(a + d + b, d, j)
    ensures Split(a + d + b, d) == [a] + Split(b, d)
  {
    FirstOccurrenceAfter(a, d, b);
  }

  lemma {:induction false} SplitAtChar(a: string, c: char, b: string)
    requires !(c in a)
    ensures Split(a + [c] + b, [c]) == [a] + Split(b, [c])
  {
    NoOccurrenceInside(a, [c], b);
    SplitAt(a, [c], b);
  }

  /** One step of the split. */
  lemma {:induction false} SplitUnfold(s: string, d: string)
    requires |d| > 0
    ensures IndexOf(s, d) < 0 ==> Split(s, d) == [s]
    ensures IndexOf(s, d) >= 0 ==>
      Split(s, d) == [s[..IndexOf(s, d)]] + Split(s[IndexOf(s, d) + |d|..], d)
  {
  }

  /** The first piece of a split is the text before the first separator, and
      when there is one the remaining pieces are the split of the text after it. */
  lemma {:induction false} SplitHead(s: string, d: string)
    requires |d| > 0
    ensures Split(s, d)[0] == Before(s, d)
    ensures Includes(s, d) ==> Split(s, d)[1..] == Split(After(s, d), d)
  {
    var i := IndexOf(s, d);
    SplitUnfold(s, d);
    if i < 0 {
      assert Before(s, d) == s;
    } else {
      var t := s[i + |d|..];
      var rest := Split(t, d);
      assert Before(s, d) == s[..i];
      assert After(s, d) == t;
      assert ([s[..i]] + rest)[1..] == rest;
    }
  }

  /** Text that neither starts nor ends with white space is left as it is by `trim`. */
  lemma {:induction false} TrimNoop(s: string)
    requires s == [] || (!IsSpace(s[0]) && !IsSpace(s[|s| - 1]))
    ensures Trim(s) == s
  {
    assert TrimStart(s) == s;
  }

  /** Leading white space is dropped by `trim`. */
  lemma {:induction false} TrimLeadingSpace(c: char, s: string)
    requires IsSpace(c)
    ensures Trim([c] + s) == Trim(s)
  {
    assert ([c] + s)[1..] == s;
  }

  /** The ASCII white space that `trim` removes and the regular-expression
      class `\s` matches: space, tab, line feed, vertical tab, form feed and
      carriage return (the last five are the code points 9 to 13). */
  predicate IsSpace(c: char)
  {
    c == ' ' || ('\t' <= c <= '\r')
  }

  predicate AllSpace(s: string)
  {
    forall k :: 0 <= k < |s| ==> IsSpace(s[k])
  }

  function TrimStart(s: string): (r: string)
    ensures |r| <= |s| && r == s[|s| - |r|..]
    ensures AllSpace(s[..|s| - |r|])
    ensures r == [] || !IsSpace(r[0])
    decreases |s|
  {
    if |s| > 0 && IsSpace(s[0]) then
      var r := TrimStart(s[1..]);
      assert s[..|s| - |r|] == [s[0]] + s[1..][..|s| - 1 - |r|];
      r
    else s
  }

  function TrimEnd(s: string): (r: string)
    ensures |r| <= |s| && r == s[..|r|]
    ensures AllSpace(s[|r|..])
    ensures r == [] || !IsSpace(r[|r| - 1])
    decreases |s|
  {
    if |s| > 0 && IsSpace(s[|s| - 1]) then
      var r := TrimEnd(s[..|s| - 1]);
      assert s[|r|..] == s[..|s| - 1][|r|..] + [s[|s| - 1]];
      r
    else s
  }

  /** `s.trim()`: `s` without its leading and trailing white space. */
  function Trim(s: string): (r: string)
  {
    TrimEnd(TrimStart(s))
  }

  /** What trim keeps starts and ends with something other than white space. */
  lemma {:induction false} TrimEnds(s: string)
    ensures Trim(s) == [] || (!IsSpace(Trim(s)[0]) && !IsSpace(Trim(s)[|Trim(s)| - 1]))
  {
    var a := TrimStart(s);
    var b := TrimEnd(a);
    if b != [] {
      assert b[0] == a[0];
    }
  }

  /** `s.replace(p, v)` with a string pattern: only the first occurrence is
      replaced (the `$` patterns of the replacement are not modelled). */
  function ReplaceFirst(s: string, p: string, v: string): string
  {
    var i := IndexOf(s, p);
    if i < 0 then s else s[..i] + v + s[i + |p|..]
  }

  /** When `p` does not occur, `replace` changes nothing. */
  lemma {:induction false} ReplaceAbsent(s: string, p: string, v: string)
    requires forall i :: !OccursAt(s, p, i)
    ensures ReplaceFirst(s, p, v) == s
  {
  }

  /** When the first occurrence of `p` in `a + p + b` is the one after `a`,
      `replace` puts `v` there and keeps `a` and `b`, including every later
      occurrence of `p` in `b`. */
  lemma {:induction false} ReplaceAt(a: string, p: string, b: string, v: string)
    requires forall j :: 0 <= j < |a| ==> !OccursAt(a + p + b, p, j)
    ensures ReplaceFirst(a + p + b, p, v) == a + v + b
  {
    var s := a + p + b;
    assert OccursAt(s, p, |a|) by {
      assert s[|a|..|a| + |p|] == p;
    }
    var i := IndexOf(s, p);
    assert i == |a|;
    assert s[..i] == a;
    assert s[i + |p|..] == b;
  }

  /** `s.replaceAll(c, d)` for single-character strings. */
  function ReplaceAllChar(s: string, c: char, d: char): (r: string)
    ensures |r| == |s|
    ensures forall k :: 0 <= k < |s| ==> r[k] == (if s[k] == c then d else s[k])
  {
    if |s| == 0 then "" else [if s[0] == c then d else s[0]] + ReplaceAllChar(s[1..], c, d)
  }

  lemma {:induction false} ReplaceAllCharConcat(a: string, b: string, c: char, d: char)
    ensures ReplaceAllChar(a + b, c, d) == ReplaceAllChar(a, c, d) + ReplaceAllChar(b, c, d)
  {
    var l := ReplaceAllChar(a + b, c, d);
    var r := ReplaceAllChar(a, c, d) + ReplaceAllChar(b, c, d);
    assert |l| == |r|;
    forall k | 0 <= k < |l| ensures l[k] == r[k] {
      if k < |a| { assert (a + b)[k] == a[k]; } else { assert (a + b)[k] == b[k - |a|]; }
    }
  }

  lemma {:induction false} ReplaceAllCharAbsent(s: string, c: char, d: char)
    requires !(c in s)
    ensures ReplaceAllChar(s, c, d) == s
  {
  }

  /** ASCII case mapping; other characters are left as they are. */
  function ToUpperChar(c: char): char
  {
    if 'a' <= c <= 'z' then (c as int - 32) as char else c
  }

  function ToLowerChar(c: char): char
  {
    if 'A' <= c <= 'Z' then (c as int + 32) as char else c
  }

  function ToLower(s: string): (r: string)
    ensures |r| == |s| && forall k :: 0 <= k < |s| ==> r[k] == ToLowerChar(s[k])
  {
    if |s| == 0 then "" else [ToLowerChar(s[0])] + ToLower(s[1..])
  }

  /** `a < b` on JavaScript strings: code-unit-wise lexicographic order. */
  predicate LexLess(a: string, b: string)
    decreases |a|
  {
    if |a| == 0 then |b| > 0
    else if |b| == 0 then false
    else if a[0] != b[0] then a[0] < b[0]
    else LexLess(a[1..], b[1..])
  }

  lemma {:induction false} LexLessIrreflexive(a: string)
    ensures !LexLess(a, a)
    decreases |a|
  {
    if |a| > 0 { LexLessIrreflexive(a[1..]); }
  }

  lemma {:induction false} LexLessTransitive(a: string, b: string, c: string)
    requires LexLess(a, b) && LexLess(b, c)
    ensures LexLess(a, c)
    decreases |a|
  {
    if |a| > 0 && a[0] == b[0] && b[0] == c[0] {
      LexLessTransitive(a[1..], b[1..], c[1..]);
    }
  }

  /** Distinct strings are always ordered one way or the other. */
  lemma {:induction false} LexLessTotal(a: string, b: string)
    ensures a == b || LexLess(a, b) || LexLess(b, a)
    decreases |a|
  {
    if |a| > 0 && |b| > 0 && a[0] == b[0] {
      LexLessTotal(a[1..], b[1..]);
      if a[1..] == b[1..] {
        assert a == [a[0]] + a[1..] && b == [b[0]] + b[1..];
      }
    }
  }

  lemma {:induction false} LexLessAsymmetric(a: string, b: string)
    requires LexLess(a, b)
    ensures !LexLess(b, a)
  {
    if LexLess(b, a) {
      LexLessTransitive(a, b, a);
      LexLessIrreflexive(a);
    }
  }
}
