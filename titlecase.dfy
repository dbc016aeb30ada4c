/** `toTitleCase` (index.ts, and the identical function of index.js): the
    replacement of every match of the regular expression `\w\S*` by its first
    character upper-cased and the rest lower-cased. */
module TitleCase {
  import opened JsString

  /** The regular-expression class `\w`: ASCII letters, digits and `_`. */
  predicate IsWordChar(c: char)
  {
    ('a' <= c <= 'z') || ('A' <= c <= 'Z') || ('0' <= c <= '9') || c == '_'
  }

  /** Length of the longest prefix without white space: what `\S*` matches. */
  function RunLength(s: string): (n: nat)
    ensures n <= |s|
    ensures forall k :: 0 <= k < n ==> !IsSpace(s[k])
    ensures n == |s| || IsSpace(s[n])
    decreases |s|
  {
    if |s| == 0 || IsSpace(s[0]) then 0 else 1 + RunLength(s[1..])
  }

  /** The global replacement, match by match: a match starts at a word
      character and runs up to the next white space; the scan resumes after it. */
  function ToTitleCase(s: string): (r: string)
    ensures |r| == |s|
    decreases |s|
  {
    if |s| == 0 then ""
    else if IsWordChar(s[0]) then
      var n := RunLength(s);
      [ToUpperChar(s[0])] + ToLower(s[1..n]) + ToTitleCase(s[n..])
    else [s[0]] + ToTitleCase(s[1..])
  }

  /** The same replacement read one character at a time, as a two-state
      machine: outside a match a word character is upper-cased and opens one;
      inside, white space closes it and anything else is lower-cased. */
  function Scan(s: string, inside: bool): (r: string)
    ensures |r| == |s|
    decreases |s|
  {
    if |s| == 0 then ""
    else if inside && !IsSpace(s[0]) then [ToLowerChar(s[0])] + Scan(s[1..], true)
    else if !inside && IsWordChar(s[0]) then [ToUpperChar(s[0])] + Scan(s[1..], true)
    else [s[0]] + Scan(s[1..], false)
  }

  lemma {:induction false} RunLengthTail(s: string)
    requires |s| > 0 && !IsSpace(s[0])
    ensures RunLength(s[1..]) == RunLength(s) - 1
  {
  }

  /** One step of the scan inside a match. */
  lemma {:induction false} ScanInsideStep(s: string)
    requires |s| > 0 && !IsSpace(s[0])
    ensures Scan(s, true) == [ToLowerChar(s[0])] + Scan(s[1..], true)
  {
  }

  /** One step of the scan at the start of a match. */
  lemma {:induction false} ScanWordStart(s: string)
    requires |s| > 0 && IsWordChar(s[0])
    ensures Scan(s, false) == [ToUpperChar(s[0])] + Scan(s[1..], true)
  {
  }

  lemma {:induction false} ToLowerPrefix(s: string, n: int)
    requires 0 < n <= |s|
    ensures ToLower(s[..n]) == [ToLowerChar(s[0])] + ToLower(s[1..n])
  {
    var a := ToLower(s[..n]);
    var b := [ToLowerChar(s[0])] + ToLower(s[1..n]);
    assert |a| == |b|;
    forall k | 0 <= k < |a|
      ensures a[k] == b[k]
    {
      if k > 0 {
        assert b[k] == ToLower(s[1..n])[k - 1];
      }
    }
  }

  /** Inside a match, the scan lower-cases up to the next white space and
      then continues outside. */
  lemma {:induction false} ScanInside(s: string)
    ensures Scan(s, true) == ToLower(s[..RunLength(s)]) + Scan(s[RunLength(s)..], false)
    decreases |s|
  {
    var n := RunLength(s);
    if |s| == 0 {
    } else if IsSpace(s[0]) {
      assert n == 0;
      assert s[..0] == "" && s[0..] == s;
    } else {
      var t := s[1..];
      RunLengthTail(s);
      ScanInside(t);
      ScanInsideStep(s);
      assert t[..n - 1] == s[1..n];
      assert t[n - 1..] == s[n..];
      var a := ToLower(s[1..n]);
      var b := Scan(s[n..], false);
      assert Scan(t, true) == a + b;
      ToLowerPrefix(s, n);
      ConcatAssoc([ToLowerChar(s[0])], a, b);
    }
  }

  /** One match: the upper-cased first character, the lower-cased rest of
      the run, and the scan resuming outside. */
  lemma {:induction false} ScanOfMatch(s: string)
    requires |s| > 0 && IsWordChar(s[0])
    ensures Scan(s, false) == [ToUpperChar(s[0])] + ToLower(s[1..RunLength(s)]) + Scan(s[RunLength(s)..], false)
  {
    var n := RunLength(s);
    var t := s[1..];
    RunLengthTail(s);
    ScanInside(t);
    ScanWordStart(s);
    assert t[..n - 1] == s[1..n];
    assert t[n - 1..] == s[n..];
    var a := ToLower(s[1..n]);
    var b := Scan(s[n..], false);
    assert Scan(t, true) == a + b;
    ConcatAssoc([ToUpperChar(s[0])], a, b);
  }

  /** The match-by-match replacement and the character scan agree. */
  lemma {:induction false} TitleCaseIsScan(s: string)
    ensures ToTitleCase(s) == Scan(s, false)
    decreases |s|
  {
    if |s| == 0 {
    } else if IsWordChar(s[0]) {
      ScanOfMatch(s);
      TitleCaseIsScan(s[RunLength(s)..]);
    } else {
      TitleCaseIsScan(s[1..]);
    }
  }

  /** White space is never changed. */
  lemma {:induction false} ScanKeepsSpace(s: string, inside: bool)
    ensures forall k :: 0 <= k < |s| && IsSpace(s[k]) ==> Scan(s, inside)[k] == s[k]
    decreases |s|
  {
    if |s| > 0 {
      var next := (inside && !IsSpace(s[0])) || (!inside && IsWordChar(s[0]));
      ScanKeepsSpace(s[1..], next);
      assert forall k :: 1 <= k < |s| ==> Scan(s, inside)[k] == Scan(s[1..], next)[k - 1];
    }
  }

  /** Title-casing only changes the case of letters: every character keeps
      its lower-case form. */
  lemma {:induction false} ScanSameLetters(s: string, inside: bool)
    ensures forall k :: 0 <= k < |s| ==> ToLowerChar(Scan(s, inside)[k]) == ToLowerChar(s[k])
    decreases |s|
  {
    if |s| > 0 {
      var next := (inside && !IsSpace(s[0])) || (!inside && IsWordChar(s[0]));
      ScanSameLetters(s[1..], next);
      assert forall k :: 1 <= k < |s| ==> Scan(s, inside)[k] == Scan(s[1..], next)[k - 1];
    }
  }

  /** Title-casing a title-cased text changes nothing. */
  lemma {:induction false} ScanIdempotent(s: string, inside: bool)
    ensures Scan(Scan(s, inside), inside) == Scan(s, inside)
    decreases |s|
  {
    if |s| > 0 {
      var r := Scan(s, inside);
      var next := (inside && !IsSpace(s[0])) || (!inside && IsWordChar(s[0]));
      ScanIdempotent(s[1..], next);
      assert r[1..] == Scan(s[1..], next);
    }
  }

  lemma {:induction false} TitleCaseIdempotent(s: string)
    ensures ToTitleCase(ToTitleCase(s)) == ToTitleCase(s)
  {
    TitleCaseIsScan(s);
    TitleCaseIsScan(ToTitleCase(s));
    ScanIdempotent(s, false);
  }

  /** A single word that starts with a word character is capitalised and the
      rest of it lower-cased. */
  lemma {:induction false} TitleCaseOfWord(x: string)
    requires |x| > 0 && IsWordChar(x[0])
    requires forall k :: 0 <= k < |x| ==> !IsSpace(x[k])
    ensures ToTitleCase(x) == [ToUpperChar(x[0])] + ToLower(x[1..])
  {
    assert RunLength(x) == |x|;
    assert x[|x|..] == "";
  }

  lemma {:induction false} RunLengthBeforeSpace(x: string, c: char, y: string)
    requires forall k :: 0 <= k < |x| ==> !IsSpace(x[k])
    requires IsSpace(c)
    ensures RunLength(x + [c] + y) == |x|
  {
    var s := x + [c] + y;
    assert s[|x|] == c;
    forall k | 0 <= k < |x|
      ensures !IsSpace(s[k])
    {
      assert s[k] == x[k];
    }
  }

  lemma {:induction false} TitleCaseAfterSpace(c: char, y: string)
    requires IsSpace(c)
    ensures ToTitleCase([c] + y) == [c] + ToTitleCase(y)
  {
    assert ([c] + y)[1..] == y;
  }

  lemma {:induction false} TitleCaseWordThenSpace(x: string, c: char, y: string)
    requires |x| > 0 && IsWordChar(x[0])
    requires forall k :: 0 <= k < |x| ==> !IsSpace(x[k])
    requires IsSpace(c)
    ensures ToTitleCase(x + [c] + y) == [ToUpperChar(x[0])] + ToLower(x[1..]) + [c] + ToTitleCase(y)
  {
    var s := x + [c] + y;
    RunLengthBeforeSpace(x, c, y);
    var t := [c] + y;
    assert s[|x|..] == t;
    assert s[1..|x|] == x[1..];
    TitleCaseAfterSpace(c, y);
    assert ToTitleCase(s) == [ToUpperChar(s[0])] + ToLower(s[1..|x|]) + ToTitleCase(s[|x|..]);
  }

  /** A character that starts no match is kept. */
  lemma {:induction false} TitleCaseNonWord(s: string)
    requires |s| > 0 && !IsWordChar(s[0])
    ensures ToTitleCase(s) == [s[0]] + ToTitleCase(s[1..])
  {
  }

  lemma {:induction false} TitleCaseNonWordThenRest(x: string, c: char, y: string)
    requires |x| > 0 && !IsWordChar(x[0])
    requires ToTitleCase(x[1..] + [c] + y) == ToTitleCase(x[1..]) + [c] + ToTitleCase(y)
    ensures ToTitleCase(x + [c] + y) == ToTitleCase(x) + [c] + ToTitleCase(y)
  {
    var s := x + [c] + y;
    assert s[0] == x[0];
    assert s[1..] == x[1..] + [c] + y;
    TitleCaseNonWord(s);
    TitleCaseNonWord(x);
    var h := [x[0]];
    var a := ToTitleCase(x[1..]);
    var b := ToTitleCase(y);
    ConcatAssoc(a, [c], b);
    ConcatAssoc(h, a, [c] + b);
    ConcatAssoc(h + a, [c], b);
  }

  /** Words are title-cased independently: a white-space character splits
      the text into two parts that are converted on their own. */
  lemma {:induction false} TitleCaseSplitsAtSpace(x: string, c: char, y: string)
    requires forall k :: 0 <= k < |x| ==> !IsSpace(x[k])
    requires IsSpace(c)
    ensures ToTitleCase(x + [c] + y) == ToTitleCase(x) + [c] + ToTitleCase(y)
    decreases |x|
  {
    if |x| == 0 {
      assert x + [c] + y == [c] + y;
      TitleCaseAfterSpace(c, y);
    } else if IsWordChar(x[0]) {
      TitleCaseWordThenSpace(x, c, y);
      TitleCaseOfWord(x);
    } else {
      TitleCaseSplitsAtSpace(x[1..], c, y);
      TitleCaseNonWordThenRest(x, c, y);
    }
  }

  // Examples. The small lemmas from `TitleMy` to `TitleMyFirstPost` each fix
  // one fact about one literal, so that the solver sees each literal on its
  // own; they serve only the example `MyFirstPost`.

  lemma {:induction false} TitleMy()
    ensures ToTitleCase("my") == "My"
  {
    TitleCaseOfWord("my");
    assert "my"[1..] == "y";
  }

  lemma {:induction false} TitleFirst()
    ensures ToTitleCase("first") == "First"
  {
    TitleCaseOfWord("first");
    assert "first"[1..] == "irst";
  }

  lemma {:induction false} TitlePost()
    ensures ToTitleCase("post") == "Post"
  {
    TitleCaseOfWord("post");
    assert "post"[1..] == "ost";
  }

  lemma {:induction false} SpacedMyFirstPost()
    ensures ReplaceAllChar("my" + "_" + "first" + "_" + "post", '_', ' ')
         == "my" + [' '] + ("first" + [' '] + "post")
  {
    var s := "my" + "_" + "first" + "_" + "post";
    var e := "my" + [' '] + ("first" + [' '] + "post");
    assert s == "my_first_post";
    assert e == "my first post";
    var r := ReplaceAllChar(s, '_', ' ');
    assert |r| == |e|;
    forall k | 0 <= k < |r|
      ensures r[k] == e[k]
    {
      assert r[k] == (if s[k] == '_' then ' ' else s[k]);
    }
  }

  lemma {:induction false} TitleMyFirstPost()
    ensures ToTitleCase("my" + [' '] + ("first" + [' '] + "post"))
         == "My" + [' '] + ("First" + [' '] + "Post")
  {
    TitleMy();
    TitleFirst();
    TitlePost();
    TitleCaseSplitsAtSpace("first", ' ', "post");
    TitleCaseSplitsAtSpace("my", ' ', "first" + [' '] + "post");
  }

  /** The default title of `my_first_post`: after `_` becomes a space,
      each word is capitalised, giving `My First Post`. */
  lemma {:induction false} MyFirstPost()
    ensures ToTitleCase(ReplaceAllChar("my" + "_" + "first" + "_" + "post", '_', ' '))
         == "My" + " " + "First" + " " + "Post"
  {
    SpacedMyFirstPost();
    TitleMyFirstPost();
    assert "My" + [' '] + ("First" + [' '] + "Post") == "My" + " " + "First" + " " + "Post";
  }
}
