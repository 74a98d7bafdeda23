/** The translation utilities (src/translation_utils.py): paragraph chunking
    of a long text around an abstract translator, and the companion path of
    an Arabic translation next to its original file. */
module TranslationUtils {
  import opened Wrappers
  import opened Text
  import opened Paths

  /** The paragraph separator. */
  const Sep: string := "\n\n"

  /** How a chunk may grow: as the source checks it, the separator that joins
      the next paragraph is not counted (`gap == 0`); counted, it is
      `|Sep|`. */
  function Chunking(paras: seq<string>, size: int, gap: nat, done: seq<string>, cur: string): seq<string>
    decreases |paras|
  {
    if paras == [] then (if cur != "" then done + [cur] else done)
    else
      var p := paras[0];
      if |cur| + gap + |p| > size && cur != "" then Chunking(paras[1..], size, gap, done + [cur], p)
      else Chunking(paras[1..], size, gap, done, cur + (if cur != "" then Sep else "") + p)
  }

  /** The chunks of the paragraphs as the source forms them. */
  function ChunksAsWritten(paras: seq<string>, size: int): seq<string> {
    Chunking(paras, size, 0, [], "")
  }

  /** The chunks with the joining separator counted. */
  function Chunks(paras: seq<string>, size: int): seq<string> {
    Chunking(paras, size, |Sep|, [], "")
  }

  predicate NoEmpty(paras: seq<string>) {
    forall i :: 0 <= i < |paras| ==> paras[i] != ""
  }

  /** The pieces chunking has accepted so far: the finished chunks and the
      open one, once there is an open one. */
  function Accepted(done: seq<string>, cur: string): seq<string> {
    if cur == "" then [] else done + [cur]
  }

  /** Whatever the size, chunking keeps every paragraph, in order: the
      chunks joined by the separator are the paragraphs joined by it. */
  lemma {:induction false} ChunkingJoin(paras: seq<string>, size: int, gap: nat, done: seq<string>, cur: string)
    requires NoEmpty(paras)
    requires cur != "" || done == []
    ensures Join(Sep, Chunking(paras, size, gap, done, cur)) == Join(Sep, Accepted(done, cur) + paras)
    decreases |paras|
  {
    if paras == [] {
      assert Accepted(done, cur) + paras == Accepted(done, cur);
    } else {
      var p, rest := paras[0], paras[1..];
      assert NoEmpty(rest);
      var acc := Accepted(done, cur);
      assert acc + paras == (acc + [p]) + rest;
      if |cur| + gap + |p| > size && cur != "" {
        ChunkingJoin(rest, size, gap, done + [cur], p);
        assert Accepted(done + [cur], p) == acc + [p];
      } else if cur == "" {
        ChunkingJoin(rest, size, gap, done, "" + "" + p);
        assert "" + "" + p == p;
        assert Accepted(done, p) == acc + [p];
      } else {
        ChunkingJoin(rest, size, gap, done, cur + Sep + p);
        JoinMerge(done, cur, p, rest);
      }
    }
  }

  /** Joining two neighbours with the separator before joining the list
      changes nothing. */
  lemma JoinMerge(done: seq<string>, cur: string, p: string, rest: seq<string>)
    ensures Join(Sep, (done + [cur + Sep + p]) + rest) == Join(Sep, ((done + [cur]) + [p]) + rest)
  {
    var l := done + [cur + Sep + p];
    var m := (done + [cur]) + [p];
    JoinAppend(Sep, done + [cur], [p]);
    if done != [] {
      JoinAppend(Sep, done, [cur]);
      JoinAppend(Sep, done, [cur + Sep + p]);
    } else {
      assert l == [cur + Sep + p];
    }
    assert Join(Sep, l) == Join(Sep, m);
    if rest != [] {
      JoinAppend(Sep, l, rest);
      JoinAppend(Sep, m, rest);
    } else {
      assert l + rest == l && m + rest == m;
    }
  }

  /** A chunk fits the size, or is a single paragraph that alone exceeds it. */
  predicate Fits(c: string, size: int, paras: seq<string>) {
    |c| <= size || c in paras
  }

  predicate AllFit(cs: seq<string>, size: int, paras: seq<string>) {
    forall i :: 0 <= i < |cs| ==> Fits(cs[i], size, paras)
  }

  /** With the separator counted, every chunk fits. */
  lemma {:induction false} ChunkingFits(all: seq<string>, paras: seq<string>, size: int, done: seq<string>, cur: string)
    requires forall i :: 0 <= i < |paras| ==> paras[i] in all
    requires AllFit(done, size, all)
    requires cur == "" || Fits(cur, size, all)
    ensures AllFit(Chunking(paras, size, |Sep|, done, cur), size, all)
    decreases |paras|
  {
    if paras == [] {
      if cur != "" {
        AppendFits(done, cur, size, all);
      }
    } else {
      var p, rest := paras[0], paras[1..];
      assert forall i :: 0 <= i < |rest| ==> rest[i] == paras[i + 1];
      assert p in all;
      if |cur| + |Sep| + |p| > size && cur != "" {
        AppendFits(done, cur, size, all);
        ChunkingFits(all, rest, size, done + [cur], p);
      } else if cur == "" {
        assert "" + "" + p == p;
        ChunkingFits(all, rest, size, done, p);
      } else {
        var next := cur + Sep + p;
        assert |next| == |cur| + |Sep| + |p|;
        ChunkingFits(all, rest, size, done, next);
      }
    }
  }

  lemma AppendFits(done: seq<string>, cur: string, size: int, all: seq<string>)
    requires AllFit(done, size, all) && Fits(cur, size, all)
    ensures AllFit(done + [cur], size, all)
  {
    var d := done + [cur];
    forall i | 0 <= i < |d| ensures Fits(d[i], size, all) {
      if i < |done| {
        assert d[i] == done[i];
      }
    }
  }

  lemma ChunksFit(paras: seq<string>, size: int)
    ensures forall i :: 0 <= i < |Chunks(paras, size)| ==> Fits(Chunks(paras, size)[i], size, paras)
  {
    ChunkingFits(paras, paras, size, [], "");
    assert Chunks(paras, size) == Chunking(paras, size, |Sep|, [], "");
  }

  /** As written, two short paragraphs are merged into a chunk longer than
      the size: the check leaves out the separator. */
  lemma ChunkOverflowAsWritten()
    ensures ChunksAsWritten(["a", "b"], 2) == ["a\n\nb"]
    ensures !Fits("a\n\nb", 2, ["a", "b"])
  {
    var ps: seq<string> := ["a", "b"];
    assert ps[0] == "a" && ps[1..] == ["b"] && ps[1..][1..] == [];
    assert "" + "" + "a" == "a";
    assert Chunking(ps, 2, 0, [], "") == Chunking(["b"], 2, 0, [], "a");
    assert "a" + Sep + "b" == "a\n\nb";
    assert Chunking(["b"], 2, 0, [], "a") == Chunking([], 2, 0, [], "a\n\nb");
    assert "a\n\nb" != "a" && "a\n\nb" != "b";
  }

  // ---------------------------------------------------------------------------
  // translate_to_arabic
  // ---------------------------------------------------------------------------

  function ErrorText(e: string, text: string): string {
    "[Translation Error: " + e + "]\n\n" + text
  }

  /** The chunks translated in order; the first failure aborts. */
  function TranslateAll(chunks: seq<string>, translate: string -> Result<string>): (r: Result<seq<string>>)
    ensures r.Ok? <==> forall i :: 0 <= i < |chunks| ==> translate(chunks[i]).Ok?
    ensures r.Ok? ==> |r.value| == |chunks| && forall i :: 0 <= i < |chunks| ==> r.value[i] == translate(chunks[i]).value
    decreases |chunks|
  {
    if chunks == [] then Ok([])
    else
      var first := translate(chunks[0]);
      assert forall i :: 1 <= i < |chunks| ==> chunks[i] == chunks[1..][i - 1];
      if first.Err? then Err(first.error)
      else
        var rest := TranslateAll(chunks[1..], translate);
        if rest.Err? then rest else Ok([first.value] + rest.value)
  }

  /** `translate_to_arabic` over a chunking rule `gap`: blank text gives "";
      a text within the size is translated whole; a longer one chunk by
      chunk with the results joined by the separator; a failure gives the
      error line followed by the original text. */
  function TranslateWith(text: string, size: int, gap: nat, translate: string -> Result<string>): (r: string)
    ensures Strip(text) == "" ==> r == ""
    ensures Strip(text) != "" && |text| <= size ==>
      r == (if translate(text).Ok? then translate(text).value else ErrorText(translate(text).error, text))
    ensures Strip(text) != "" && |text| > size ==>
      var t := TranslateAll(Chunking(SplitOn(text, Sep), size, gap, [], ""), translate);
      r == (if t.Ok? then Join(Sep, t.value) else ErrorText(t.error, text))
  {
    if text == "" || |Strip(text)| == 0 then ""
    else if |text| <= size then
      match translate(text)
      case Ok(t) => t
      case Err(e) => ErrorText(e, text)
    else
      match TranslateAll(Chunking(SplitOn(text, Sep), size, gap, [], ""), translate)
      case Ok(ts) => Join(Sep, ts)
      case Err(e) => ErrorText(e, text)
  }

  /** `translate_to_arabic` as written: a long text is cut into
      `ChunksAsWritten`. */
  function TranslateToArabic(text: string, size: int, translate: string -> Result<string>): (r: string)
    ensures Strip(text) != "" && |text| > size ==>
      var t := TranslateAll(ChunksAsWritten(SplitOn(text, Sep), size), translate);
      r == (if t.Ok? then Join(Sep, t.value) else ErrorText(t.error, text))
  {
    TranslateWith(text, size, 0, translate)
  }

  /** `translate_to_arabic` with the separator counted: a long text is cut
      into `Chunks`, every one of which fits the size or is one paragraph. */
  function TranslateToArabicCorrected(text: string, size: int, translate: string -> Result<string>): (r: string)
    ensures Strip(text) != "" && |text| > size ==>
      var t := TranslateAll(Chunks(SplitOn(text, Sep), size), translate);
      r == (if t.Ok? then Join(Sep, t.value) else ErrorText(t.error, text))
  {
    TranslateWith(text, size, |Sep|, translate)
  }

  /** With a translator that changes nothing, a non-blank text without empty
      paragraphs comes back unchanged, whichever way it is chunked. */
  lemma IdentityRoundTripWith(text: string, size: int, gap: nat)
    requires Strip(text) != "" && NoEmpty(SplitOn(text, Sep))
    ensures TranslateWith(text, size, gap, x => Ok(x)) == text
  {
    var id: string -> Result<string> := x => Ok(x);
    if |text| > size {
      var paras := SplitOn(text, Sep);
      var cs := Chunking(paras, size, gap, [], "");
      var t := TranslateAll(cs, id);
      assert t.value == cs;
      ChunkingJoin(paras, size, gap, [], "");
      assert [] + paras == paras;
      SplitJoin(text, Sep);
    }
  }

  /** The identity round trip of `translate_to_arabic` as written. */
  lemma IdentityRoundTrip(text: string, size: int)
    requires Strip(text) != "" && NoEmpty(SplitOn(text, Sep))
    ensures TranslateToArabic(text, size, x => Ok(x)) == text
  {
    IdentityRoundTripWith(text, size, 0);
  }

  /** The identity round trip of the corrected chunking. */
  lemma IdentityRoundTripCorrected(text: string, size: int)
    requires Strip(text) != "" && NoEmpty(SplitOn(text, Sep))
    ensures TranslateToArabicCorrected(text, size, x => Ok(x)) == text
  {
    IdentityRoundTripWith(text, size, |Sep|);
  }

  // ---------------------------------------------------------------------------
  // The companion file
  // ---------------------------------------------------------------------------

  /** `parent / (stem + "-arabic" + suffix)`. */
  function ArabicPath(p: FilePath): (r: FilePath)
    ensures r.dir == p.dir && r.name != p.name
  {
    StemSuffixSplit(p.name);
    FilePath(p.dir, Stem(p.name) + "-arabic" + Suffix(p.name))
  }

  /** The files, by path. */
  type Files = map<FilePath, string>

  /** `save_arabic_translation`: writes the companion file and returns its
      path. */
  function SaveArabic(fs: Files, p: FilePath, content: string): (r: (Files, FilePath))
    ensures r.1 == ArabicPath(p) && r.1 in r.0 && r.0[r.1] == content
    ensures forall q :: q != r.1 ==> (q in r.0 <==> q in fs) && (q in fs ==> r.0[q] == fs[q])
  {
    (fs[ArabicPath(p) := content], ArabicPath(p))
  }

  /** `load_arabic_translation`: the companion file's content, or None. */
  function LoadArabic(fs: Files, p: FilePath): (r: Option<string>)
    ensures r.Some? <==> ArabicPath(p) in fs
    ensures r.Some? ==> r.value == fs[ArabicPath(p)]
  {
    if ArabicPath(p) in fs then Some(fs[ArabicPath(p)]) else None
  }

  /** `has_arabic_translation`. */
  function HasArabic(fs: Files, p: FilePath): (r: bool)
    ensures r <==> LoadArabic(fs, p).Some?
  {
    ArabicPath(p) in fs
  }

  /** What is saved is found and loaded back, and the original file is left
      as it was. */
  lemma SaveThenLoad(fs: Files, p: FilePath, content: string)
    ensures var (fs2, _) := SaveArabic(fs, p, content);
      && LoadArabic(fs2, p) == Some(content) && HasArabic(fs2, p)
      && (p in fs2 <==> p in fs) && (p in fs ==> fs2[p] == fs[p])
  {
    assert ArabicPath(p) != p;
  }
}
