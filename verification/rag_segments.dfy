/** Loading parsed contract JSON into retrievable segments (app/rag_model.py):
    whitespace normalisation of segment text and the selection of segment
    items and the full-text item. */
module RagSegments {
  import opened Wrappers
  import opened Text
  import opened Json

  // ---------------------------------------------------------------------------
  // normalize_space
  // ---------------------------------------------------------------------------

  /** `re.sub(r"\s+", " ", s)`: every maximal whitespace run becomes one space. */
  function CollapseRuns(s: string): (r: string)
    ensures s == [] <==> r == []
    ensures r != [] ==> r[0] == (if IsSpace(s[0]) then ' ' else s[0])
    decreases |s|
  {
    if s == [] then []
    else if IsSpace(s[0]) then " " + CollapseRuns(LStrip(s[1..]))
    else [s[0]] + CollapseRuns(s[1..])
  }

  /** The only whitespace is a plain space, never two in a row. */
  ghost predicate SingleSpaced(t: string) {
    && (forall i :: 0 <= i < |t| && IsSpace(t[i]) ==> t[i] == ' ')
    && (forall i, j :: 0 <= i < j < |t| && j == i + 1 ==> !(IsSpace(t[i]) && IsSpace(t[j])))
  }

  /** The shape of normalised text: single-spaced, no surrounding whitespace. */
  ghost predicate Normalized(t: string) {
    SingleSpaced(t) && (t == [] || (!IsSpace(t[0]) && !IsSpace(t[|t| - 1])))
  }

  /** The non-whitespace characters of a string, in order. */
  function NonSpace(s: string): string
    decreases |s|
  {
    if s == [] then "" else (if IsSpace(s[0]) then "" else [s[0]]) + NonSpace(s[1..])
  }

  /** `normalize_space(s)`: collapse whitespace runs, then strip. */
  function NormalizeSpace(s: string): (r: string)
    ensures Normalized(r)
    ensures NonSpace(r) == NonSpace(s)
    ensures r == [] <==> IsBlank(s)
  {
    NormalizeFacts(s);
    Strip(CollapseRuns(s))
  }

  lemma NormalizeFacts(s: string)
    ensures Normalized(Strip(CollapseRuns(s)))
    ensures NonSpace(Strip(CollapseRuns(s))) == NonSpace(s)
    ensures Strip(CollapseRuns(s)) == [] <==> IsBlank(s)
  {
    var c := CollapseRuns(s);
    var r := Strip(c);
    CollapseSingleSpaced(s);
    StripKeepsSingleSpaced(c);
    assert SingleSpaced(r);
    assert r == [] || (!IsSpace(r[0]) && !IsSpace(r[|r| - 1]));
    CollapseKeepsNonSpace(s);
    StripKeepsNonSpace(c);
    CollapseBlank(s);
  }

  lemma {:induction false} CollapseSingleSpaced(s: string)
    ensures SingleSpaced(CollapseRuns(s))
    decreases |s|
  {
    if s != [] {
      var r := CollapseRuns(s);
      if IsSpace(s[0]) {
        var t := LStrip(s[1..]);
        CollapseSingleSpaced(t);
        assert r[1..] == CollapseRuns(t);
      } else {
        CollapseSingleSpaced(s[1..]);
        assert r[1..] == CollapseRuns(s[1..]);
      }
    }
  }

  lemma StripKeepsSingleSpaced(c: string)
    requires SingleSpaced(c)
    ensures SingleSpaced(Strip(c))
  {
    var k := |c| - |LStrip(c)|;
    StripSlice(c);
    SingleSpacedSlice(c, Strip(c), k);
  }

  /** Any piece of single-spaced text is single-spaced. */
  lemma SingleSpacedSlice(c: string, r: string, a: nat)
    requires SingleSpaced(c) && a + |r| <= |c| && r == c[a..a + |r|]
    ensures SingleSpaced(r)
  {
    forall i | 0 <= i < |r| && IsSpace(r[i]) ensures r[i] == ' ' {
      assert r[i] == c[a + i];
    }
    forall i, j | 0 <= i < j < |r| && j == i + 1 ensures !(IsSpace(r[i]) && IsSpace(r[j])) {
      assert r[i] == c[a + i] && r[j] == c[a + j];
    }
  }

  lemma {:induction false} CollapseKeepsNonSpace(s: string)
    ensures NonSpace(CollapseRuns(s)) == NonSpace(s)
    decreases |s|
  {
    if s != [] {
      if IsSpace(s[0]) {
        var t := LStrip(s[1..]);
        CollapseKeepsNonSpace(t);
        BlankNonSpace(s[1..][..|s| - 1 - |t|]);
        NonSpaceConcat(s[1..][..|s| - 1 - |t|], t);
        assert s[1..] == s[1..][..|s| - 1 - |t|] + t;
        assert (" " + CollapseRuns(t))[1..] == CollapseRuns(t);
      } else {
        CollapseKeepsNonSpace(s[1..]);
        assert ([s[0]] + CollapseRuns(s[1..]))[1..] == CollapseRuns(s[1..]);
      }
    }
  }

  lemma StripKeepsNonSpace(c: string)
    ensures NonSpace(Strip(c)) == NonSpace(c)
  {
    var a, b := StripDecompose(c);
    NonSpaceAround(a, Strip(c), b);
  }

  lemma NonSpaceAround(a: string, r: string, b: string)
    requires IsBlank(a) && IsBlank(b)
    ensures NonSpace(a + r + b) == NonSpace(r)
  {
    NonSpaceConcat(a + r, b);
    NonSpaceConcat(a, r);
    BlankNonSpace(a);
    BlankNonSpace(b);
  }

  lemma CollapseBlank(s: string)
    ensures IsBlank(Strip(CollapseRuns(s))) <==> IsBlank(s)
    ensures Strip(CollapseRuns(s)) == [] <==> IsBlank(s)
  {
    CollapseKeepsNonSpace(s);
    StripKeepsNonSpace(CollapseRuns(s));
    BlankIffNoNonSpace(s);
    BlankIffNoNonSpace(Strip(CollapseRuns(s)));
  }

  lemma BlankNonSpace(s: string)
    requires IsBlank(s)
    ensures NonSpace(s) == ""
    decreases |s|
  {
    if s != [] {
      BlankNonSpace(s[1..]);
    }
  }

  lemma BlankIffNoNonSpace(s: string)
    ensures IsBlank(s) <==> NonSpace(s) == ""
    decreases |s|
  {
    if s != [] {
      BlankIffNoNonSpace(s[1..]);
      assert IsBlank(s) <==> IsSpace(s[0]) && IsBlank(s[1..]);
    }
  }

  lemma NonSpaceConcat(a: string, b: string)
    ensures NonSpace(a + b) == NonSpace(a) + NonSpace(b)
    decreases |a|
  {
    if a != [] {
      assert (a + b)[1..] == a[1..] + b;
      NonSpaceConcat(a[1..], b);
    } else {
      assert a + b == b;
    }
  }

  /** Single-spaced text passes through the collapsing step unchanged. */
  lemma {:induction false} CollapseSingleSpacedNoop(t: string)
    requires SingleSpaced(t)
    ensures CollapseRuns(t) == t
    decreases |t|
  {
    if t != [] {
      assert SingleSpaced(t[1..]);
      if IsSpace(t[0]) {
        if |t| > 1 {
          assert !IsSpace(t[1..][0]);
        }
        assert LStrip(t[1..]) == t[1..];
      }
      CollapseSingleSpacedNoop(t[1..]);
    }
  }

  /** Normalising twice is the same as normalising once. */
  lemma NormalizeSpaceIdempotent(s: string)
    ensures NormalizeSpace(NormalizeSpace(s)) == NormalizeSpace(s)
  {
    var t := NormalizeSpace(s);
    CollapseSingleSpacedNoop(t);
    StripNoop(t);
  }

  // ---------------------------------------------------------------------------
  // load_parsed
  // ---------------------------------------------------------------------------

  /** A retrievable segment: its id rendered with `str()`, normalised text, and
      the title and level carried over from the item. */
  datatype Segment = Segment(id: string, text: string, title: Value, level: Value)

  /** The full text of the document (`""` when no item carries one) and the
      segments, in item order. */
  datatype Loaded = Loaded(fullText: Value, segments: seq<Segment>)

  /** An item that becomes a segment: a dict with `id` and `text` and no
      `full_text` (the full-text branch is tried first). */
  predicate IsSegmentItem(it: Value) {
    it.VObj? && "full_text" !in it.fields && "id" in it.fields && "text" in it.fields
  }

  /** A segment item whose text `normalize_space` can process. */
  predicate HasStringText(it: Value) {
    IsSegmentItem(it) ==> it.fields["text"].VStr?
  }

  function SegmentOf(it: Value): (seg: Segment)
    requires IsSegmentItem(it) && HasStringText(it)
    ensures Normalized(seg.text)
  {
    var f := it.fields;
    Segment(Str(f["id"]), NormalizeSpace(f["text"].s), Get(f, "title", VStr("")), Get(f, "level", VNull))
  }

  /** No segment item among the first n has a non-string text. */
  predicate StringTextTo(items: seq<Value>, n: nat)
    requires n <= |items|
  {
    forall j :: 0 <= j < n ==> HasStringText(items[j])
  }

  /** No segment item of the list has a non-string text. */
  predicate AllStringText(items: seq<Value>) {
    StringTextTo(items, |items|)
  }

  /** Reference: the segment items among the first n items, in order. */
  function SegmentItemsTo(items: seq<Value>, n: nat): (r: seq<Value>)
    requires n <= |items|
    ensures forall j :: 0 <= j < |r| ==> IsSegmentItem(r[j]) && r[j] in items
    ensures StringTextTo(items, n) ==> forall j :: 0 <= j < |r| ==> HasStringText(r[j])
    decreases n
  {
    if n == 0 then []
    else
      var last := items[n - 1];
      SegmentItemsTo(items, n - 1) + (if IsSegmentItem(last) then [last] else [])
  }

  /** Reference: the segment items of a list, in order. */
  function SegmentItems(items: seq<Value>): (r: seq<Value>)
    ensures forall j :: 0 <= j < |r| ==> IsSegmentItem(r[j]) && r[j] in items
  {
    SegmentItemsTo(items, |items|)
  }

  /** Reference: the segments made from a list of segment items. */
  function SegmentsOf(items: seq<Value>): (r: seq<Segment>)
    requires forall j :: 0 <= j < |items| ==> IsSegmentItem(items[j]) && HasStringText(items[j])
    ensures |r| == |items|
    ensures forall j :: 0 <= j < |items| ==> r[j] == SegmentOf(items[j])
  {
    seq(|items|, j requires 0 <= j < |items| => SegmentOf(items[j]))
  }

  /** Reference: the value of the last full-text item among the first n,
      `""` if none. */
  function LastFullTextTo(items: seq<Value>, n: nat): Value
    requires n <= |items|
    decreases n
  {
    if n == 0 then VStr("")
    else if HasFullText(items[n - 1]) then items[n - 1].fields["full_text"]
    else LastFullTextTo(items, n - 1)
  }

  /** Reference: the outcome of loading a list of well-typed items, stated by
      selection instead of by iteration. */
  function LoadReference(items: seq<Value>): Result<Loaded>
    requires AllStringText(items)
  {
    var segItems := SegmentItems(items);
    if segItems == [] then Err("No segments found")
    else Ok(Loaded(LastFullTextTo(items, |items|), SegmentsOf(segItems)))
  }

  /** The items of a loaded source: a list as is, the `items` list of a dict.
      Any other `items` value holds no dict items, or raises when it is a
      scalar that cannot be iterated; a top-level scalar has no `get` and
      raises. */
  function SourceItems(src: Value): Result<seq<Value>> {
    match src
    case VList(items) => Ok(items)
    case VObj(fields) =>
      if "items" !in fields then Ok([])
      else (match fields["items"]
            case VList(items) => Ok(items)
            case VStr(_) => Ok([])
            case VObj(_) => Ok([])
            case _ => Err("TypeError: object is not iterable"))
    case _ => Err("AttributeError: object has no attribute 'get'")
  }

  /** `load_parsed` on already loaded JSON: the items of the source are
      walked once (see LoadItems). */
  method LoadParsed(src: Value) returns (r: Result<Loaded>)
    ensures SourceItems(src).Err? ==> r == Err(SourceItems(src).error)
    ensures SourceItems(src).Ok? && AllStringText(SourceItems(src).value) ==>
              r == LoadReference(SourceItems(src).value)
    ensures SourceItems(src).Ok? && !AllStringText(SourceItems(src).value) ==>
              r == Err(TextTypeError)
  {
    var got := SourceItems(src);
    if got.Err? {
      return Err(got.error);
    }
    r := LoadItems(got.value);
  }

  /** The exception `normalize_space` raises on a non-string text. */
  const TextTypeError := "TypeError: expected string or bytes-like object"

  /** The loop of `load_parsed`: remember the last full text, turn every other
      item with `id` and `text` into a segment, and fail when no segment was
      found. */
  method LoadItems(items: seq<Value>) returns (r: Result<Loaded>)
    ensures AllStringText(items) ==> r == LoadReference(items)
    ensures !AllStringText(items) ==> r == Err(TextTypeError)
  {
    var fullText := VStr("");
    var segments: seq<Segment> := [];
    var i := 0;
    while i < |items|
      invariant 0 <= i <= |items|
      invariant StringTextTo(items, i)
      invariant fullText == LastFullTextTo(items, i)
      invariant segments == SegmentsOf(SegmentItemsTo(items, i))
    {
      var it := items[i];
      if HasFullText(it) {
        fullText := it.fields["full_text"];
      } else if IsSegmentItem(it) {
        if !it.fields["text"].VStr? {
          assert !HasStringText(items[i]);
          return Err(TextTypeError);
        }
        segments := segments + [SegmentOf(it)];
      }
      SegmentsStep(items, i);
      i := i + 1;
    }
    if segments == [] {
      return Err("No segments found");
    }
    return Ok(Loaded(fullText, segments));
  }

  /** One step of the walk: item n extends the selection by at most
      itself. */
  lemma SegmentsStep(items: seq<Value>, n: nat)
    requires n < |items| && StringTextTo(items, n + 1)
    ensures SegmentsOf(SegmentItemsTo(items, n + 1)) ==
      SegmentsOf(SegmentItemsTo(items, n)) + (if IsSegmentItem(items[n]) then [SegmentOf(items[n])] else [])
  {
  }

  /** Every loaded segment comes from an item of the source, and its text is
      normalised. */
  lemma LoadedSegmentsFromItems(items: seq<Value>, k: nat)
    requires AllStringText(items) && LoadReference(items).Ok?
    requires k < |LoadReference(items).value.segments|
    ensures SegmentItems(items)[k] in items
    ensures Normalized(LoadReference(items).value.segments[k].text)
    ensures LoadReference(items).value.segments[k].id == Str(SegmentItems(items)[k].fields["id"])
  {
  }
}
