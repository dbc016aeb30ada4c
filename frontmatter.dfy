/** The front matter of a document: the metadata lines above the first `---`
    and the markdown below it. `splitContent` of index.ts checks for the
    delineator and trims every key and value; the older `splitContent` of
    index.js does neither. */
module FrontMatter {
  import opened Wrappers
  import opened Errors
  import opened JsString

  /** The metadata of a document: a JavaScript `Map` from key to value, where
      a value can be `undefined` (a line without `:`). */
  type Meta = map<string, Option<string>>

  /** One metadata entry, the first two cells of the array handed to `new Map`. */
  type Entry = (string, Option<string>)

  const Delineator := "---"

  /** `meta.get(key)`: `undefined` for a missing key and for a key whose value
      is `undefined`. */
  function Get(m: Meta, key: string): (r: Option<string>)
    ensures r.Some? ==> key in m && m[key] == r
    ensures key !in m ==> r == None
  {
    if key in m then m[key] else None
  }

  /** Entry `i` is the last one with its key. */
  predicate LastWithKey(es: seq<Entry>, i: int)
  {
    0 <= i < |es| && forall j :: i < j < |es| ==> es[j].0 != es[i].0
  }

  /** `new Map(entries)`: each entry in turn sets its key. */
  function MapFromEntries(es: seq<Entry>): (m: Meta)
    decreases |es|
  {
    if |es| == 0 then map[] else MapFromEntries(es[..|es| - 1])[es[|es| - 1].0 := es[|es| - 1].1]
  }

  /** The keys of `new Map(entries)` are exactly the keys of the entries. */
  lemma {:induction false} MapKeys(es: seq<Entry>, k: string)
    ensures k in MapFromEntries(es) <==> exists i :: 0 <= i < |es| && es[i].0 == k
    decreases |es|
  {
    if |es| > 0 {
      var init := es[..|es| - 1];
      MapKeys(init, k);
      if k in MapFromEntries(init) {
        var i :| 0 <= i < |init| && init[i].0 == k;
        assert es[i].0 == k;
      }
      if k != es[|es| - 1].0 && exists i :: 0 <= i < |es| && es[i].0 == k {
        var i :| 0 <= i < |es| && es[i].0 == k;
        assert init[i].0 == k;
      }
    }
  }

  /** When a key repeats, the last entry with it wins. */
  lemma {:induction false} LastWins(es: seq<Entry>, i: int)
    requires LastWithKey(es, i)
    ensures es[i].0 in MapFromEntries(es) && MapFromEntries(es)[es[i].0] == es[i].1
    decreases |es|
  {
    if i < |es| - 1 {
      var init := es[..|es| - 1];
      assert init[i] == es[i];
      assert LastWithKey(init, i) by {
        forall j | i < j < |init| ensures init[j].0 != init[i].0 {
          assert init[j] == es[j];
        }
      }
      LastWins(init, i);
    }
  }

  /** The metadata lines: the trimmed text above the delineator, split at
      every line feed. */
  function Lines(meta: string): (r: seq<string>)
    ensures |r| >= 1
  {
    Split(Trim(meta), "\n")
  }

  /** index.ts, one line: split at every `:` and every piece trimmed; the
      first piece is the key, the second (if any) the value. */
  function TsEntry(line: string): Entry
  {
    var pieces := Split(line, ":");
    (Trim(pieces[0]), if |pieces| >= 2 then Some(Trim(pieces[1])) else None)
  }

  /** index.js, one line: split at every `:`, nothing trimmed. */
  function JsEntry(line: string): Entry
  {
    var pieces := Split(line, ":");
    (pieces[0], if |pieces| >= 2 then Some(pieces[1]) else None)
  }

  function TsEntries(lines: seq<string>): (es: seq<Entry>)
    ensures |es| == |lines|
  {
    seq(|lines|, i requires 0 <= i < |lines| => TsEntry(lines[i]))
  }

  function JsEntries(lines: seq<string>): (es: seq<Entry>)
    ensures |es| == |lines|
  {
    seq(|lines|, i requires 0 <= i < |lines| => JsEntry(lines[i]))
  }

  /** The metadata map of index.ts: empty for a single line without `:`,
      otherwise one entry per line. */
  function TsParseMeta(meta: string): Meta
  {
    var lines := Lines(meta);
    if |lines| == 1 && |Split(lines[0], ":")| == 1 then map[]
    else MapFromEntries(TsEntries(lines))
  }

  /** The metadata map of index.js: one entry per line, always. */
  function JsParseMeta(meta: string): Meta
  {
    MapFromEntries(JsEntries(Lines(meta)))
  }

  /** `splitContent` of index.ts. A document without the delineator is
      rejected; otherwise the metadata is read from the text before the first
      delineator and the body is the rest of the text, trimmed, with every
      later delineator kept. */
  function TsSplitContent(content: string): (r: Result<(Meta, string), BuildError>)
    ensures r.Err? <==> !Includes(content, Delineator)
    ensures r.Err? ==> r.error == MalformedDocument
    ensures r.Ok? ==> (r.value.0 == TsParseMeta(Before(content, Delineator))
                       && r.value.1 == Trim(After(content, Delineator)))
  {
    if !Includes(content, Delineator) then Err(MalformedDocument)
    else
      var parts := Split(content, Delineator);
      SplitHead(content, Delineator);
      JoinSplit(After(content, Delineator), Delineator);
      Ok((TsParseMeta(parts[0]), Trim(Join(parts[1..], Delineator))))
  }

  /** `splitContent` of index.js. It never fails: without a delineator the
      whole text is metadata and the body is empty. */
  function JsSplitContent(content: string): (r: (Meta, string))
    ensures r.0 == JsParseMeta(Before(content, Delineator))
    ensures !Includes(content, Delineator) ==> r.0 == JsParseMeta(content) && r.1 == ""
    ensures Includes(content, Delineator) ==> r.1 == Trim(After(content, Delineator))
  {
    var parts := Split(content, Delineator);
    SplitHead(content, Delineator);
    if Includes(content, Delineator) then
      JoinSplit(After(content, Delineator), Delineator);
      (JsParseMeta(parts[0]), Trim(Join(parts[1..], Delineator)))
    else
      SplitSingle(content, Delineator);
      (JsParseMeta(parts[0]), Trim(Join(parts[1..], Delineator)))
  }

  /** The metadata text and the body text are the two sides of the first
      delineator: nothing is lost but the delineator itself. */
  lemma {:induction false} DelineatorRoundTrip(content: string)
    requires Includes(content, Delineator)
    ensures content == Before(content, Delineator) + Delineator + After(content, Delineator)
  {
    var i := IndexOf(content, Delineator);
    assert content[i..i + 3] == Delineator;
    assert content == content[..i] + content[i..i + 3] + content[i + 3..];
  }

  /** An index.ts line: the key is the text before the first `:`, the value
      the text after it up to the next `:`, both trimmed; a line without `:`
      is a key with no value. */
  lemma {:induction false} TsEntryMeaning(line: string)
    ensures !Includes(line, ":") ==> TsEntry(line) == (Trim(line), None)
    ensures Includes(line, ":") ==>
      TsEntry(line) == (Trim(Before(line, ":")), Some(Trim(Before(After(line, ":"), ":"))))
  {
    SplitHead(line, ":");
    SplitSingle(line, ":");
    if Includes(line, ":") {
      SplitHead(After(line, ":"), ":");
    }
  }

  /** An index.js line: the same pieces, untrimmed. */
  lemma {:induction false} JsEntryMeaning(line: string)
    ensures !Includes(line, ":") ==> JsEntry(line) == (line, None)
    ensures Includes(line, ":") ==>
      JsEntry(line) == (Before(line, ":"), Some(Before(After(line, ":"), ":")))
  {
    SplitHead(line, ":");
    SplitSingle(line, ":");
    if Includes(line, ":") {
      SplitHead(After(line, ":"), ":");
    }
  }

  /** index.ts gives an empty map exactly when the trimmed metadata is a
      single line without `:` (in particular when there is no metadata). */
  lemma {:induction false} TsMetaEmpty(meta: string)
    ensures TsParseMeta(meta) == map[]
        <==> !Includes(Trim(meta), "\n") && !Includes(Trim(meta), ":")
  {
    var lines := Lines(meta);
    SplitSingle(Trim(meta), "\n");
    if |lines| == 1 {
      SplitSingle(lines[0], ":");
    }
    if !(|lines| == 1 && |Split(lines[0], ":")| == 1) {
      var es := TsEntries(lines);
      MapKeys(es, es[0].0);
    }
  }

  /** Outside the empty case, index.ts has a key for every line and looks a
      key up in the last line that has it. */
  lemma {:induction false} TsMetaLookup(meta: string, i: int)
    requires |Lines(meta)| > 1 || Includes(Trim(meta), ":")
    requires LastWithKey(TsEntries(Lines(meta)), i)
    ensures Get(TsParseMeta(meta), TsEntry(Lines(meta)[i]).0) == TsEntry(Lines(meta)[i]).1
  {
    var lines := Lines(meta);
    SplitSingle(Trim(meta), "\n");
    if |lines| == 1 {
      SplitSingle(lines[0], ":");
    }
    LastWins(TsEntries(lines), i);
  }

  /** index.js looks a key up in the last line that has it. */
  lemma {:induction false} JsMetaLookup(meta: string, i: int)
    requires LastWithKey(JsEntries(Lines(meta)), i)
    ensures Get(JsParseMeta(meta), JsEntry(Lines(meta)[i]).0) == JsEntry(Lines(meta)[i]).1
  {
    LastWins(JsEntries(Lines(meta)), i);
  }

  lemma {:induction false} SingleEntry(e: Entry)
    ensures MapFromEntries([e]) == map[e.0 := e.1]
  {
    assert [e][..0] == [];
  }

  /** Metadata text that is one line after trimming. */
  lemma {:induction false} OneLine(meta: string)
    requires Trim(meta) == meta && !('\n' in meta)
    ensures Lines(meta) == [meta]
    ensures TsEntries(Lines(meta)) == [TsEntry(meta)]
    ensures JsEntries(Lines(meta)) == [JsEntry(meta)]
  {
    CharNotIncluded(meta, '\n');
    SplitSingle(meta, "\n");
  }

  /** Without metadata, index.js still makes one entry: the key `""` with no value. */
  lemma {:induction false} JsMetaBlank(meta: string)
    requires AllSpace(meta)
    ensures JsParseMeta(meta) == map["" := None]
  {
    assert TrimStart(meta) == [];
    OneLine("");
    SplitSingle("", ":");
    SingleEntry(("", None));
  }

  /** index.js reads a line without `:` as its whole text mapped to no value. */
  lemma {:induction false} JsMetaNoColon(line: string)
    requires Trim(line) == line
    requires !('\n' in line) && !(':' in line)
    ensures JsParseMeta(line) == map[line := None]
  {
    OneLine(line);
    CharNotIncluded(line, ':');
    SplitSingle(line, ":");
    SingleEntry((line, None));
  }

  /** A one-line `key:value` metadata text, with an optional further `:` and
      text after it. */
  predicate KeyValueLine(line: string, key: string, value: string, tail: string)
  {
    line == key + ":" + value + tail
    && !(':' in key) && !(':' in value) && !('\n' in line)
    && (tail == "" || tail[0] == ':')
    && Trim(line) == line
  }

  lemma {:induction false} KeyValuePieces(line: string, key: string, value: string, tail: string)
    requires KeyValueLine(line, key, value, tail)
    ensures |Split(line, ":")| >= 2
    ensures Split(line, ":")[0] == key && Split(line, ":")[1] == value
  {
    assert line == key + [':'] + (value + tail);
    SplitAtChar(key, ':', value + tail);
    if tail == "" {
      assert value + tail == value;
      CharNotIncluded(value, ':');
      SplitSingle(value, ":");
    } else {
      assert value + tail == value + [':'] + tail[1..];
      SplitAtChar(value, ':', tail[1..]);
    }
  }

  /** index.ts trims the key and the value of a `key: value` line. */
  lemma {:induction false} TsKeyValue(line: string, key: string, value: string, tail: string)
    requires KeyValueLine(line, key, value, tail)
    ensures TsParseMeta(line) == map[Trim(key) := Some(Trim(value))]
  {
    KeyValuePieces(line, key, value, tail);
    OneLine(line);
    SingleEntry(TsEntry(line));
  }

  /** index.js keeps the key and the value of a `key: value` line as they are,
      including the space after the `:`. */
  lemma {:induction false} JsKeyValue(line: string, key: string, value: string, tail: string)
    requires KeyValueLine(line, key, value, tail)
    ensures JsParseMeta(line) == map[key := Some(value)]
  {
    KeyValuePieces(line, key, value, tail);
    OneLine(line);
    SingleEntry(JsEntry(line));
  }

  /** index.ts looks the key of a `key: value` line up as the trimmed value. */
  lemma {:induction false} TsKeyValueGet(line: string, key: string, value: string, tail: string)
    requires KeyValueLine(line, key, value, tail) && Trim(key) == key
    ensures Get(TsParseMeta(line), key) == Some(Trim(value))
  {
    TsKeyValue(line, key, value, tail);
  }

  /** index.js looks the key of a `key: value` line up as the untrimmed value. */
  lemma {:induction false} JsKeyValueGet(line: string, key: string, value: string, tail: string)
    requires KeyValueLine(line, key, value, tail)
    ensures Get(JsParseMeta(line), key) == Some(value)
  {
    JsKeyValue(line, key, value, tail);
  }

  // Examples. The small lemmas from `NoTail` to `HelloLine` each fix one fact
  // about one literal, so that the solver sees each literal on its own; they
  // serve only the examples `TsValueStopsAtColon` and `JsValueUntrimmed`.

  lemma {:induction false} NoTail(line: string, key: string, value: string)
    requires line == key + ":" + value
    ensures line == key + ":" + value + ""
  {
  }

  lemma {:induction false} NoColonIn(s: string)
    requires s == "k" || s == " a" || s == "title" || s == " Hello"
    ensures !(':' in s)
  {
  }

  lemma {:induction false} NoLineFeedIn(line: string)
    requires line == "k" + ":" + " a" + ":b" || line == "title" + ":" + " Hello"
    ensures !('\n' in line)
  {
  }

  lemma {:induction false} TrimmedLine(line: string)
    requires line == "k" + ":" + " a" + ":b" || line == "title" + ":" + " Hello"
    ensures Trim(line) == line
  {
    TrimNoop(line);
  }

  lemma {:induction false} TrimmedKey(key: string)
    requires key == "k"
    ensures Trim(key) == key
  {
    TrimNoop(key);
  }

  lemma {:induction false} TrimmedValue(value: string)
    requires value == " a"
    ensures Trim(value) == "a"
  {
    var rest := value[1..];
    assert value == [value[0]] + rest;
    TrimLeadingSpace(value[0], rest);
    TrimNoop(rest);
  }

  lemma {:induction false} ColonTail(tail: string)
    requires tail == ":b"
    ensures tail != "" && tail[0] == ':'
  {
  }

  /** `k: a:b` gives `k` the value `a` in index.ts: the value stops at the
      second `:`. */
  lemma {:induction false} TsValueStopsAtColon(key: string, value: string, tail: string)
    requires key == "k" && value == " a" && tail == ":b"
    ensures Get(TsParseMeta(key + ":" + value + tail), key) == Some("a")
  {
    var line := key + ":" + value + tail;
    NoColonIn(key);
    NoColonIn(value);
    NoLineFeedIn(line);
    TrimmedLine(line);
    TrimmedKey(key);
    TrimmedValue(value);
    ColonTail(tail);
    TsKeyValueGet(line, key, value, tail);
  }

  lemma {:induction false} HelloLine(key: string, value: string)
    requires key == "title" && value == " Hello"
    ensures KeyValueLine(key + ":" + value, key, value, "")
  {
    var line := key + ":" + value;
    NoColonIn(key);
    NoColonIn(value);
    NoLineFeedIn(line);
    TrimmedLine(line);
    NoTail(line, key, value);
  }

  /** `title: Hello` gives `title` the value ` Hello` in index.js. */
  lemma {:induction false} JsValueUntrimmed(key: string, value: string)
    requires key == "title" && value == " Hello"
    ensures Get(JsParseMeta(key + ":" + value), key) == Some(value)
  {
    HelloLine(key, value);
    JsKeyValueGet(key + ":" + value, key, value, "");
  }

  /** When the delineator after the metadata is the first one, the body is
      everything after it, later delineators included. */
  lemma {:induction false} BodyKeepsLaterDelineators(meta: string, body: string)
    requires !Includes(meta + "--", Delineator)
    ensures TsSplitContent(meta + Delineator + body) == Ok((TsParseMeta(meta), Trim(body)))
  {
    assert Delineator[..|Delineator| - 1] == "--";
    NoEarlierOccurrence(meta, Delineator, body);
    FirstOccurrenceAfter(meta, Delineator, body);
  }

  /** The body of a document is the trimmed text after the first delineator. */
  lemma {:induction false} BodyWhenTrimmed(meta: string, body: string)
    requires !Includes(meta + "--", Delineator) && Trim(body) == body
    ensures TsSplitContent(meta + Delineator + body).Ok?
    ensures TsSplitContent(meta + Delineator + body).value.1 == body
  {
    BodyKeepsLaterDelineators(meta, body);
  }

  /** `m---a---b` has the body `a---b`. */
  lemma {:induction false} BodyOfExample(meta: string, body: string)
    requires meta == "m" && body == "a" + Delineator + "b"
    ensures TsSplitContent(meta + Delineator + body).Ok?
    ensures TsSplitContent(meta + Delineator + body).value.1 == body
  {
    var t := meta + "--";
    assert t[..|Delineator|] != Delineator by {
      assert t[..|Delineator|][0] == 'm';
    }
    assert IndexOf(t[1..], Delineator) == -1;
    assert !Includes(t, Delineator);
    TrimNoop(body);
    BodyWhenTrimmed(meta, body);
  }
}
