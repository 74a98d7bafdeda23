/** The sentence segmenter (src/rag/parse_utils.py): every item with an id
    and a text is cut into sentences by the capital-letter rule of
    `SENT_SPLIT`, and each non-blank sentence becomes a segment whose id is
    the item's id, `_s` and the sentence's position written with three
    digits. The first full-text item is carried over in front. */
module SentenceSegments {
  import opened Wrappers
  import opened Text
  import opened Json
  import opened Sentences

  /** The items `for it in items` walks over, as far as dict items go: a
      list's elements; a dict or a string yields only keys or characters,
      never a dict; anything else is not iterable. */
  function Walked(src: Value): Result<seq<Value>> {
    match src
    case VList(items) => Ok(items)
    case VObj(_) => Ok([])
    case VStr(_) => Ok([])
    case _ => Err("TypeError: object is not iterable")
  }

  /** An item that is cut into sentences. */
  predicate IsTextItem(it: Value) {
    it.VObj? && "id" in it.fields && "text" in it.fields
  }

  /** The first full-text item, copied unchanged; at most one is copied. */
  function FirstFullText(items: seq<Value>): (r: seq<Value>)
    ensures |r| <= 1
    ensures r == [] <==> forall i :: 0 <= i < |items| ==> !HasFullText(items[i])
    ensures r != [] ==> FirstAt(items, r[0])
    decreases |items|
  {
    if items == [] then []
    else if HasFullText(items[0]) then [items[0]]
    else
      var r := FirstFullText(items[1..]);
      assert forall i :: 1 <= i < |items| ==> items[i] == items[1..][i - 1];
      FirstAfterShift(items, r);
      r
  }

  /** The first full-text item is the first one of the tail when the head
      is not one. */
  predicate FirstAt(items: seq<Value>, v: Value) {
    exists i :: 0 <= i < |items| && v == items[i] && HasFullText(items[i])
                && forall j :: 0 <= j < i ==> !HasFullText(items[j])
  }

  lemma FirstAfterShift(items: seq<Value>, r: seq<Value>)
    requires items != [] && !HasFullText(items[0])
    requires r != [] ==> FirstAt(items[1..], r[0])
    ensures r != [] ==> FirstAt(items, r[0])
  {
    if r != [] {
      var i :| 0 <= i < |items[1..]| && r[0] == items[1..][i] && HasFullText(items[1..][i])
               && forall j :: 0 <= j < i ==> !HasFullText(items[1..][j]);
      assert r[0] == items[i + 1];
      forall j | 0 <= j < i + 1 ensures !HasFullText(items[j]) {
        if j > 0 {
          assert items[j] == items[1..][j - 1];
        }
      }
    }
  }

  /** `sent.strip()` for every piece. */
  function Stripped(pieces: seq<string>): (r: seq<string>)
    ensures |r| == |pieces| && forall i :: 0 <= i < |pieces| ==> r[i] == Strip(pieces[i])
  {
    seq(|pieces|, i requires 0 <= i < |pieces| => Strip(pieces[i]))
  }

  /** The non-empty sentences with their positions, counted from `start`;
      an empty sentence is dropped but still uses up its position. */
  function Numbered(ss: seq<string>, start: nat): (r: seq<(nat, string)>)
    ensures IsNumbering(ss, start, r)
    decreases |ss|
  {
    if ss == [] then []
    else
      var rest := Numbered(ss[1..], start + 1);
      if ss[0] == "" then
        NumberingSkip(ss, start, rest);
        rest
      else
        NumberingCons(ss, start, rest);
        [(start, ss[0])] + rest
  }

  /** `r` lists non-empty sentences of `ss` with their positions counted from
      `start`, at most one pair per sentence, positions increasing. */
  predicate IsNumbering(ss: seq<string>, start: nat, r: seq<(nat, string)>) {
    && |r| <= |ss|
    && (forall k :: 0 <= k < |r| ==> start <= r[k].0 < start + |ss| && r[k].1 == ss[r[k].0 - start] != "")
    && (forall a, b :: 0 <= a < b < |r| ==> r[a].0 < r[b].0)
  }

  /** Dropping the first sentence keeps a numbering of the rest valid. */
  lemma NumberingSkip(ss: seq<string>, start: nat, rest: seq<(nat, string)>)
    requires ss != [] && IsNumbering(ss[1..], start + 1, rest)
    ensures IsNumbering(ss, start, rest)
  {
    forall k | 0 <= k < |rest|
      ensures rest[k].1 == ss[rest[k].0 - start]
    {
      assert ss[1..][rest[k].0 - (start + 1)] == ss[rest[k].0 - start];
    }
  }

  /** Putting the first sentence at `start` ahead of a numbering of the rest
      gives a numbering of the whole. */
  lemma NumberingCons(ss: seq<string>, start: nat, rest: seq<(nat, string)>)
    requires ss != [] && ss[0] != "" && IsNumbering(ss[1..], start + 1, rest)
    ensures IsNumbering(ss, start, [(start, ss[0])] + rest)
  {
    var r := [(start, ss[0])] + rest;
    NumberingSkip(ss, start, rest);
    assert forall k :: 1 <= k < |r| ==> r[k] == rest[k - 1];
  }

  /** Every non-empty sentence is numbered by its own position. */
  lemma {:induction false} NumberedComplete(ss: seq<string>, start: nat, i: nat)
    requires i < |ss| && ss[i] != ""
    ensures exists k :: 0 <= k < |Numbered(ss, start)| && Numbered(ss, start)[k].0 == start + i
    decreases |ss|
  {
    var r := Numbered(ss, start);
    var rest := Numbered(ss[1..], start + 1);
    if i > 0 {
      NumberedComplete(ss[1..], start + 1, i - 1);
      var k :| 0 <= k < |rest| && rest[k].0 == start + 1 + (i - 1);
      if ss[0] == "" {
        assert r[k] == rest[k];
      } else {
        NumberedCons(ss, start);
        ConsIndex((start, ss[0]), rest, k);
        assert r[k + 1] == rest[k];
      }
    } else {
      assert r[0].0 == start;
    }
  }

  /** A non-empty first sentence is numbered `start`, ahead of the rest. */
  lemma NumberedCons(ss: seq<string>, start: nat)
    requires ss != [] && ss[0] != ""
    ensures Numbered(ss, start) == [(start, ss[0])] + Numbered(ss[1..], start + 1)
  {
  }

  /** Prepending one element shifts every index by one. */
  lemma ConsIndex<T>(x: T, xs: seq<T>, k: nat)
    requires k < |xs|
    ensures ([x] + xs)[k + 1] == xs[k]
  {
  }

  /** The segment made from sentence number i of an item. */
  function SentenceSegment(fields: map<string, Value>, i: nat, s: string): (r: Value)
    requires "id" in fields
    ensures r.VObj? && "id" in r.fields && "text" in r.fields
    ensures r.fields["id"] == VStr(SentenceId(fields["id"], i)) && r.fields["text"] == VStr(s)
  {
    VObj(map[
      "id" := VStr(SentenceId(fields["id"], i)),
      "lang" := Get(fields, "lang", VStr("en")),
      "title" := Get(fields, "title", VStr("")),
      "level" := Get(fields, "level", VNull),
      "text" := VStr(s)])
  }

  /** `f"{id}_s{i:03d}"`. */
  function SentenceId(id: Value, i: nat): string {
    Str(id) + "_s" + Pad3(i)
  }

  /** The sentence pieces of an item's text. */
  function Pieces(text: string): seq<string> {
    Split(Strip(text), true)
  }

  /** The segments of one item: none for an item without id or text, an
      error for a text that is not a string. */
  function ItemSegments(it: Value): (r: Result<seq<Value>>)
    ensures !IsTextItem(it) ==> r == Ok([])
    ensures IsTextItem(it) ==> (r.Ok? <==> it.fields["text"].VStr?)
    ensures r.Ok? && IsTextItem(it) ==>
      var ns := Numbered(Stripped(Pieces(it.fields["text"].s)), 0);
      |r.value| == |ns| && forall k :: 0 <= k < |ns| ==> r.value[k] == SentenceSegment(it.fields, ns[k].0, ns[k].1)
  {
    if !IsTextItem(it) then Ok([])
    else if !it.fields["text"].VStr? then Err("AttributeError: object has no attribute 'strip'")
    else
      var ns := Numbered(Stripped(Pieces(it.fields["text"].s)), 0);
      Ok(seq(|ns|, k requires 0 <= k < |ns| => SentenceSegment(it.fields, ns[k].0, ns[k].1)))
  }

  /** Every item's segments in item order; the first failing item aborts. */
  function AllSegments(items: seq<Value>): (r: Result<seq<Value>>)
    ensures r.Ok? <==> ItemsSegmented(items)
    decreases |items|
  {
    if items == [] then Ok([])
    else
      var first := ItemSegments(items[0]);
      if first.Err? then Err(first.error)
      else
        var rest := AllSegments(items[1..]);
        ItemsSegmentedCons(items);
        if rest.Err? then rest else Ok(first.value + rest.value)
  }

  /** Every item segments without an error. */
  predicate ItemsSegmented(items: seq<Value>) {
    forall i :: 0 <= i < |items| ==> ItemSegments(items[i]).Ok?
  }

  lemma ItemsSegmentedCons(items: seq<Value>)
    requires items != []
    ensures ItemsSegmented(items) <==> ItemSegments(items[0]).Ok? && ItemsSegmented(items[1..])
  {
    assert forall i :: 1 <= i < |items| ==> items[i] == items[1..][i - 1];
  }

  /** `to_sentence_segments` on already loaded JSON. */
  function ToSentenceSegments(src: Value): (r: Result<seq<Value>>)
    ensures Walked(src).Err? ==> r.Err?
    ensures Walked(src).Ok? ==> (r.Ok? <==> AllSegments(Walked(src).value).Ok?)
    ensures r.Ok? ==> r.value == FirstFullText(Walked(src).value) + AllSegments(Walked(src).value).value
  {
    var items :- Walked(src);
    var segs :- AllSegments(items);
    Ok(FirstFullText(items) + segs)
  }

  // ---------------------------------------------------------------------------
  // Properties
  // ---------------------------------------------------------------------------

  /** Within one item, different sentence numbers give different ids. */
  lemma SentenceIdInjective(id: Value, i: nat, j: nat)
    requires SentenceId(id, i) == SentenceId(id, j)
    ensures i == j
  {
    var p := Str(id) + "_s";
    assert Pad3(i) == SentenceId(id, i)[|p|..];
    assert Pad3(j) == SentenceId(id, j)[|p|..];
    Pad3Value(i);
    Pad3Value(j);
  }

  /** The segments of one item carry pairwise different ids. */
  lemma ItemIdsDistinct(it: Value, a: nat, b: nat)
    requires ItemSegments(it).Ok? && a < b < |ItemSegments(it).value|
    ensures ItemSegments(it).value[a].fields["id"] != ItemSegments(it).value[b].fields["id"]
  {
    var ns := Numbered(Stripped(Pieces(it.fields["text"].s)), 0);
    var r := ItemSegments(it).value;
    assert r[a] == SentenceSegment(it.fields, ns[a].0, ns[a].1);
    assert r[b] == SentenceSegment(it.fields, ns[b].0, ns[b].1);
    if SentenceId(it.fields["id"], ns[a].0) == SentenceId(it.fields["id"], ns[b].0) {
      SentenceIdInjective(it.fields["id"], ns[a].0, ns[b].0);
    }
  }

  /** Every segment's text is a non-empty stripped sentence found in the
      item's stripped text. */
  lemma SegmentTextContained(it: Value, k: nat)
    requires ItemSegments(it).Ok? && k < |ItemSegments(it).value|
    ensures var seg := ItemSegments(it).value[k].fields["text"];
      && seg.VStr? && seg.s != "" && Trimmed(seg.s)
      && Contains(Strip(it.fields["text"].s), seg.s)
  {
    var t := it.fields["text"].s;
    var ps := Pieces(t);
    var ns := Numbered(Stripped(ps), 0);
    var i := ns[k].0;
    assert ItemSegments(it).value[k] == SentenceSegment(it.fields, i, ns[k].1);
    assert ns[k].1 == Strip(ps[i]);
    PieceContained(Strip(t), true, i);
    StripContained(ps[i]);
    ContainsTrans(Strip(t), ps[i], Strip(ps[i]));
  }

  /** Every non-blank sentence of an item's text has a segment numbered by
      its position among all sentences. */
  lemma EverySentenceKept(it: Value, i: nat)
    requires IsTextItem(it) && it.fields["text"].VStr?
    requires i < |Pieces(it.fields["text"].s)| && Strip(Pieces(it.fields["text"].s)[i]) != ""
    ensures exists k :: (0 <= k < |ItemSegments(it).value|
      && ItemSegments(it).value[k] == SentenceSegment(it.fields, i, Strip(Pieces(it.fields["text"].s)[i])))
  {
    var ns := Numbered(Stripped(Pieces(it.fields["text"].s)), 0);
    NumberedComplete(Stripped(Pieces(it.fields["text"].s)), 0, i);
    var k :| 0 <= k < |ns| && ns[k].0 == i;
    assert ItemSegments(it).value[k] == SentenceSegment(it.fields, ns[k].0, ns[k].1);
  }
}
