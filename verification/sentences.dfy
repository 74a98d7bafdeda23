/** Sentence splitting by the look-around rule shared by the extractive
    answerer and the sentence segmenter: cut at a whitespace run whose first
    character follows `.`, `?` or `!`; the segmenter additionally requires the
    run to be followed by an ASCII capital or `[`. The pieces are what Python's
    `re.split` returns for `(?<=[.?!])\s+` and `(?<=[.?!])\s+(?=[A-Z\[])`. */
module Sentences {
  import opened Wrappers
  import opened Text

  predicate IsTerminal(c: char) {
    c == '.' || c == '?' || c == '!'
  }

  predicate IsCapOrBracket(c: char) {
    ('A' <= c <= 'Z') || c == '['
  }

  /** The end of the whitespace run that starts at i: the first position at or
      after i that is not whitespace, or the end of the text. */
  function RunEnd(s: string, i: nat): (j: nat)
    requires i <= |s|
    ensures i <= j <= |s|
    ensures forall p :: i <= p < j ==> IsSpace(s[p])
    ensures j < |s| ==> !IsSpace(s[j])
    decreases |s| - i
  {
    if i == |s| || !IsSpace(s[i]) then i else RunEnd(s, i + 1)
  }

  /** A split happens at position i: a whitespace run starts there right after
      terminal punctuation (and, with `cap`, is followed by a capital or `[`). */
  predicate IsCut(s: string, i: nat, cap: bool) {
    && 0 < i < |s|
    && IsTerminal(s[i - 1])
    && IsSpace(s[i])
    && (cap ==> RunEnd(s, i) < |s| && IsCapOrBracket(s[RunEnd(s, i)]))
  }

  /** The earliest cut at or after p. */
  function FirstCutFrom(s: string, p: nat, cap: bool): (r: Option<nat>)
    ensures r.Some? ==> p <= r.value && IsCut(s, r.value, cap)
    ensures r.Some? ==> forall q :: p <= q < r.value ==> !IsCut(s, q, cap)
    ensures r.None? ==> forall q :: p <= q ==> !IsCut(s, q, cap)
    decreases |s| - p
  {
    if p >= |s| then None
    else if IsCut(s, p, cap) then Some(p)
    else FirstCutFrom(s, p + 1, cap)
  }

  /** The pieces between the cuts, in text order. */
  function Split(s: string, cap: bool): (r: seq<string>)
    ensures |r| >= 1
    decreases |s|
  {
    match FirstCutFrom(s, 0, cap)
    case None => [s]
    case Some(i) => [s[..i]] + Split(s[RunEnd(s, i)..], cap)
  }

  /** The whitespace runs removed at the cuts, in text order. */
  function Gaps(s: string, cap: bool): (r: seq<string>)
    ensures |r| + 1 == |Split(s, cap)|
    decreases |s|
  {
    match FirstCutFrom(s, 0, cap)
    case None => []
    case Some(i) => [s[i..RunEnd(s, i)]] + Gaps(s[RunEnd(s, i)..], cap)
  }

  /** Pieces interleaved with separators. */
  function Weave(pieces: seq<string>, gaps: seq<string>): string
    requires |gaps| + 1 == |pieces|
    decreases |gaps|
  {
    if gaps == [] then pieces[0] else pieces[0] + gaps[0] + Weave(pieces[1..], gaps[1..])
  }

  /** One cut: the first piece, its gap, and the split of the rest. */
  lemma SplitStep(s: string, cap: bool, i: nat)
    requires FirstCutFrom(s, 0, cap) == Some(i)
    ensures i < RunEnd(s, i) <= |s|
    ensures Split(s, cap) == [s[..i]] + Split(s[RunEnd(s, i)..], cap)
    ensures Gaps(s, cap) == [s[i..RunEnd(s, i)]] + Gaps(s[RunEnd(s, i)..], cap)
  {
  }

  lemma WeaveStep(s: string, i: nat, j: nat, ps: seq<string>, gs: seq<string>)
    requires i <= j <= |s| && |gs| + 1 == |ps|
    requires Weave(ps, gs) == s[j..]
    ensures Weave([s[..i]] + ps, [s[i..j]] + gs) == s
  {
    var P, G := [s[..i]] + ps, [s[i..j]] + gs;
    assert P[1..] == ps && G[1..] == gs;
    assert s == s[..i] + s[i..j] + s[j..];
  }

  /** Splitting loses nothing: the pieces and the removed whitespace runs
      interleave back to the text. */
  lemma {:induction false} SplitReassembles(s: string, cap: bool)
    ensures Weave(Split(s, cap), Gaps(s, cap)) == s
    decreases |s|
  {
    var c := FirstCutFrom(s, 0, cap);
    if c.Some? {
      var i := c.value;
      SplitStep(s, cap, i);
      var j := RunEnd(s, i);
      SplitReassembles(s[j..], cap);
      WeaveStep(s, i, j, Split(s[j..], cap), Gaps(s[j..], cap));
    }
  }

  /** Every removed run is non-empty whitespace. */
  lemma {:induction false} GapsBlank(s: string, cap: bool)
    ensures forall g :: 0 <= g < |Gaps(s, cap)| ==> Gaps(s, cap)[g] != [] && IsBlank(Gaps(s, cap)[g])
    decreases |s|
  {
    var c := FirstCutFrom(s, 0, cap);
    if c.Some? {
      var i := c.value;
      SplitStep(s, cap, i);
      var j := RunEnd(s, i);
      GapsBlank(s[j..], cap);
      assert IsBlank(s[i..j]);
    }
  }

  /** Every piece but the last is non-empty and ends with terminal
      punctuation. */
  lemma {:induction false} PieceEndsTerminal(s: string, cap: bool, k: nat)
    requires k + 1 < |Split(s, cap)|
    ensures Split(s, cap)[k] != [] && IsTerminal(Split(s, cap)[k][|Split(s, cap)[k]| - 1])
    decreases |s|
  {
    var c := FirstCutFrom(s, 0, cap);
    if c.Some? {
      if k == 0 {
        FirstPieceEndsTerminal(s, cap, c.value);
      } else {
        var j := SplitTail(s, cap, c.value, k);
        PieceEndsTerminal(s[j..], cap, k - 1);
      }
    }
  }

  /** The piece before the first cut ends with the terminal punctuation. */
  lemma FirstPieceEndsTerminal(s: string, cap: bool, i: nat)
    requires FirstCutFrom(s, 0, cap) == Some(i)
    ensures Split(s, cap)[0] != [] && IsTerminal(Split(s, cap)[0][|Split(s, cap)[0]| - 1])
  {
    SplitStep(s, cap, i);
    var first := s[..i];
    assert Split(s, cap)[0] == first;
    assert first[|first| - 1] == s[i - 1];
  }

  /** After the first cut, piece k is piece k - 1 of the rest. */
  lemma SplitTail(s: string, cap: bool, i: nat, k: nat) returns (j: nat)
    requires FirstCutFrom(s, 0, cap) == Some(i) && 0 < k < |Split(s, cap)|
    ensures j == RunEnd(s, i)
    ensures k - 1 < |Split(s[j..], cap)| && Split(s, cap)[k] == Split(s[j..], cap)[k - 1]
    ensures |Split(s[j..], cap)| + 1 == |Split(s, cap)|
  {
    SplitStep(s, cap, i);
    j := RunEnd(s, i);
  }

  /** Every piece is a substring of the text. */
  lemma {:induction false} PieceContained(s: string, cap: bool, k: nat)
    requires k < |Split(s, cap)|
    ensures Contains(s, Split(s, cap)[k])
    decreases |s|
  {
    var c := FirstCutFrom(s, 0, cap);
    if c.None? {
      ContainsAt(s, s, 0);
    } else if k == 0 {
      SplitStep(s, cap, c.value);
      ContainsAt(s, s[..c.value], 0);
    } else {
      var j := SplitTail(s, cap, c.value, k);
      PieceContained(s[j..], cap, k - 1);
      ContainsSlice(s, j, |s|);
      ContainsTrans(s, s[j..], Split(s[j..], cap)[k - 1]);
    }
  }

  /** A text without cuts is a single piece; otherwise the first piece ends
      where the earliest cut is. */
  lemma FirstPiece(s: string, cap: bool, i: nat)
    requires IsCut(s, i, cap) && forall q: nat :: q < i ==> !IsCut(s, q, cap)
    ensures Split(s, cap)[0] == s[..i]
  {
    var c := FirstCutFrom(s, 0, cap);
    assert c == Some(i);
  }

  lemma NoCutOnePiece(s: string, cap: bool)
    requires forall q: nat :: q < |s| ==> !IsCut(s, q, cap)
    ensures Split(s, cap) == [s]
  {
  }
}
