/** `ndjson_to_json`: turn a line-per-entry JSON file into one JSON array,
    skipping lines that do not parse and dropping one key from every object.
    The file contents arrive as lines (or as a read failure); the JSON parser
    is a parameter; the array handed back is what gets written. */
module Cleaner {
  import opened Wrappers
  import opened Text
  import opened Json

  /** `json.loads`: the parsed value, or None where it raises a decode error. */
  type Parser = string -> Option<Value>

  /** Python truthiness of `attribute_to_remove`: not None and not "". */
  predicate Truthy(attr: Option<string>) {
    attr.Some? && attr.value != ""
  }

  /** `entry.pop(attribute_to_remove, None)` on objects when the attribute
      is truthy; every other value is left as it is. */
  function RemoveAttribute(entry: Value, attr: Option<string>): (r: Value)
    ensures !(Truthy(attr) && entry.Object?) ==> r == entry
    ensures Truthy(attr) && entry.Object? ==>
      && r.Object?
      && r.fields.Keys == entry.fields.Keys - {attr.value}
      && forall k :: k in r.fields ==> r.fields[k] == entry.fields[k]
  {
    if Truthy(attr) && entry.Object? then Object(entry.fields - {attr.value}) else entry
  }

  /** Popping a key the object lacks changes nothing. */
  lemma RemoveAbsentIsNoop(entry: Value, attr: Option<string>)
    requires entry.Object? && attr.Some? && attr.value !in entry.fields
    ensures RemoveAttribute(entry, attr) == entry
  {
    assert entry.fields - {attr.value} == entry.fields;
  }

  /** Removing the attribute twice is removing it once. */
  lemma RemoveIdempotent(entry: Value, attr: Option<string>)
    ensures RemoveAttribute(RemoveAttribute(entry, attr), attr) == RemoveAttribute(entry, attr)
  {
    if Truthy(attr) && entry.Object? {
      RemoveAbsentIsNoop(RemoveAttribute(entry, attr), attr);
    }
  }

  /** A line survives exactly when its stripped text parses. */
  predicate Parses(parse: Parser, line: string) {
    parse(Strip(line)).Some?
  }

  /** One loop iteration: strip, parse, drop the attribute; None = skipped. */
  function CleanLine(parse: Parser, attr: Option<string>, line: string): (r: Option<Value>)
    ensures r.Some? <==> Parses(parse, line)
    ensures r.Some? ==> r.value == RemoveAttribute(parse(Strip(line)).value, attr)
  {
    match parse(Strip(line))
    case None => None
    case Some(entry) => Some(RemoveAttribute(entry, attr))
  }

  /** Keep `f`'s result for every element it maps to Some, in order: the
      shape of the loop, which appends one entry per surviving line. */
  function FilterMap<A, B>(f: A -> Option<B>, xs: seq<A>): (r: seq<B>)
    ensures |r| <= |xs|
  {
    if xs == [] then []
    else
      var init := FilterMap(f, xs[..|xs| - 1]);
      match f(xs[|xs| - 1])
      case None => init
      case Some(y) => init + [y]
  }

  /** Indices of the elements `f` keeps, in increasing order. */
  function Kept<A, B>(f: A -> Option<B>, xs: seq<A>): (r: seq<nat>)
    ensures forall k :: 0 <= k < |r| ==> r[k] < |xs|
    ensures forall k, l :: 0 <= k < l < |r| ==> r[k] < r[l]
    ensures forall i :: 0 <= i < |xs| ==> (i in r <==> f(xs[i]).Some?)
  {
    if xs == [] then []
    else
      var n := |xs| - 1;
      var init := Kept(f, xs[..n]);
      assert forall i :: 0 <= i < n ==> xs[..n][i] == xs[i];
      if f(xs[n]).Some? then init + [n] else init
  }

  /** The output is the kept elements' images in their original order:
      entry k comes from element Kept[k]. */
  lemma {:induction false} FilterMapOrder<A, B>(f: A -> Option<B>, xs: seq<A>)
    ensures var out := FilterMap(f, xs);
      var origin := Kept(f, xs);
      && |out| == |origin|
      && forall k :: 0 <= k < |out| ==> f(xs[origin[k]]) == Some(out[k])
  {
    if xs != [] {
      var n := |xs| - 1;
      FilterMapOrder(f, xs[..n]);
      var origin := Kept(f, xs[..n]);
      assert forall k :: 0 <= k < |origin| ==> xs[..n][origin[k]] == xs[origin[k]];
    }
  }

  /** FilterMap distributes over concatenation: an element never affects
      how the elements after it are treated. */
  lemma {:induction false} FilterMapAppend<A, B>(f: A -> Option<B>, a: seq<A>, b: seq<A>)
    ensures FilterMap(f, a + b) == FilterMap(f, a) + FilterMap(f, b)
    decreases |b|
  {
    if b == [] {
      assert a + b == a;
    } else {
      var m := |b| - 1;
      FilterMapAppend(f, a, b[..m]);
      assert (a + b)[..|a + b| - 1] == a + b[..m];
      assert (a + b)[|a + b| - 1] == b[m];
    }
  }

  /** The array `ndjson_to_json` builds from `lines`. */
  function CleanLines(parse: Parser, attr: Option<string>, lines: seq<string>): (r: seq<Value>)
    ensures |r| <= |lines|
    ensures forall k :: 0 <= k < |r| ==>
      exists i :: 0 <= i < |lines| && CleanLine(parse, attr, lines[i]) == Some(r[k])
  {
    var f := (line: string) => CleanLine(parse, attr, line);
    FilterMapOrder(f, lines);
    FilterMap(f, lines)
  }

  /** The cleaned array is the parsing lines, cleaned, in their original
      order, and nothing else: entry k comes from line Kept[k], those
      indices increase, and every line that parses is among them. */
  lemma CleanLinesOrder(parse: Parser, attr: Option<string>, lines: seq<string>)
    ensures var out := CleanLines(parse, attr, lines);
      var origin := Kept((line: string) => CleanLine(parse, attr, line), lines);
      && |out| == |origin|
      && (forall k, l :: 0 <= k < l < |origin| ==> origin[k] < origin[l])
      && (forall i :: 0 <= i < |lines| ==> (i in origin <==> Parses(parse, lines[i])))
      && forall k :: 0 <= k < |out| ==>
           origin[k] < |lines| && out[k] == RemoveAttribute(parse(Strip(lines[origin[k]])).value, attr)
  {
    var f := (line: string) => CleanLine(parse, attr, line);
    FilterMapOrder(f, lines);
  }

  /** A malformed line is skipped and the batch goes on. */
  lemma MalformedLineSkipped(parse: Parser, attr: Option<string>, a: seq<string>, bad: string, b: seq<string>)
    requires !Parses(parse, bad)
    ensures CleanLines(parse, attr, a + [bad] + b) == CleanLines(parse, attr, a) + CleanLines(parse, attr, b)
  {
    var f := (line: string) => CleanLine(parse, attr, line);
    FilterMapAppend(f, a + [bad], b);
    FilterMapAppend(f, a, [bad]);
    assert [bad][..0] == [];
  }

  /** Blank lines are skipped, for any parser that rejects the empty text
      (as RFC 8259 does: a JSON text holds exactly one value). */
  lemma BlankLineSkipped(parse: Parser, attr: Option<string>, line: string)
    requires parse("") == None && AllSpace(line)
    ensures CleanLine(parse, attr, line) == None
  {
    StripBlank(line);
  }

  /** With no attribute to remove (None or ""), cleaning is plain
      parse-and-skip: every parsed value passes through unchanged. */
  lemma {:induction false} FalsyAttributeKeepsEntries(parse: Parser, attr: Option<string>, lines: seq<string>)
    requires !Truthy(attr)
    ensures CleanLines(parse, attr, lines) == FilterMap((line: string) => parse(Strip(line)), lines)
  {
    if lines != [] {
      FalsyAttributeKeepsEntries(parse, attr, lines[..|lines| - 1]);
    }
  }

  /** With a truthy attribute, no object in the output has that key. */
  lemma {:induction false} TruthyAttributeRemoved(parse: Parser, attr: Option<string>, lines: seq<string>)
    requires Truthy(attr)
    ensures var out := CleanLines(parse, attr, lines);
      forall k :: 0 <= k < |out| && out[k].Object? ==> attr.value !in out[k].fields
  {
    CleanLinesOrder(parse, attr, lines);
    var out := CleanLines(parse, attr, lines);
    var origin := Kept((line: string) => CleanLine(parse, attr, line), lines);
    forall k | 0 <= k < |out| && out[k].Object?
      ensures attr.value !in out[k].fields
    {
      var parsed := parse(Strip(lines[origin[k]])).value;
      assert out[k] == RemoveAttribute(parsed, attr);
    }
  }

  /** The example cleaning: a headline entry loses its `article_link`. */
  lemma ArticleLinkExample(parse: Parser, line: string)
    requires parse(Strip(line)) == Some(Object(map[
      "headline" := Other("\"x\""), "is_sarcastic" := Other("1"), "article_link" := Other("\"y\"")]))
    ensures CleanLines(parse, Some("article_link"), [line])
      == [Object(map["headline" := Other("\"x\""), "is_sarcastic" := Other("1")])]
  {
    var m := map["headline" := Other("\"x\""), "is_sarcastic" := Other("1"), "article_link" := Other("\"y\"")];
    assert m - {"article_link"} == map["headline" := Other("\"x\""), "is_sarcastic" := Other("1")];
    assert [line][..0] == [];
  }

  /** One more line extends the array by that line's entry, if it has one. */
  lemma CleanLinesSnoc(parse: Parser, attr: Option<string>, lines: seq<string>, line: string)
    ensures CleanLines(parse, attr, lines + [line]) == match CleanLine(parse, attr, line)
      case None => CleanLines(parse, attr, lines)
      case Some(entry) => CleanLines(parse, attr, lines) + [entry]
  {
    assert (lines + [line])[..|lines|] == lines;
  }

  /** The whole conversion. `source` is the file's lines, or None when
      opening or reading it failed; the result is the array written out,
      or None when nothing is written. */
  method NdjsonToJson(source: Option<seq<string>>, parse: Parser, attr: Option<string>)
    returns (written: Option<seq<Value>>)
    ensures source.None? <==> written.None?
    ensures source.Some? ==> written.value == CleanLines(parse, attr, source.value)
  {
    if source.None? {
      return None;
    }
    var lines := source.value;
    var data: seq<Value> := [];
    var i := 0;
    while i < |lines|
      invariant 0 <= i <= |lines|
      invariant data == CleanLines(parse, attr, lines[..i])
    {
      assert lines[..i + 1] == lines[..i] + [lines[i]];
      CleanLinesSnoc(parse, attr, lines[..i], lines[i]);
      var entry := parse(Strip(lines[i]));
      if entry.Some? {
        data := data + [RemoveAttribute(entry.value, attr)];
      }
      i := i + 1;
    }
    assert lines[..|lines|] == lines;
    return Some(data);
  }
}
