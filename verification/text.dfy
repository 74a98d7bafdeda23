/** Python string primitives the rest of the model is built from: the Unicode
    whitespace class shared by `str.isspace`, `str.strip` and the `\s` class of
    `re`, ASCII case mapping, substring search, `str.join`, `str.split(sep)`,
    `str.replace`, `str.splitlines` and the integer formats `{n}`, `{n:03d}`
    and `{n:,}`. */
module Text {

  /** Python's whitespace: the characters for which `str.isspace()` holds.
      The same set is matched by `\s` in `re` and removed by `str.strip()`. */
  predicate IsSpace(c: char) {
    ('\t' <= c <= '\r') || ('\U{1C}' <= c <= '\U{1F}') || c == ' '
    || c == '\U{85}' || c == '\U{A0}' || c == '\U{1680}'
    || ('\U{2000}' <= c <= '\U{200A}') || c == '\U{2028}' || c == '\U{2029}'
    || c == '\U{202F}' || c == '\U{205F}' || c == '\U{3000}'
  }

  /** Every character is whitespace (the empty string included). */
  predicate IsBlank(s: string) {
    forall i :: 0 <= i < |s| ==> IsSpace(s[i])
  }

  /** `s[i..]` without its leading whitespace. */
  function LStripFrom(s: string, i: nat): (r: string)
    requires i <= |s|
    ensures |r| <= |s| - i && r == s[|s| - |r|..]
    ensures forall p :: i <= p < |s| - |r| ==> IsSpace(s[p])
    ensures r != [] ==> !IsSpace(r[0])
    decreases |s| - i
  {
    if i < |s| && IsSpace(s[i]) then LStripFrom(s, i + 1) else s[i..]
  }

  /** `s[..j]` without its trailing whitespace. */
  function RStripTo(s: string, j: nat): (r: string)
    requires j <= |s|
    ensures |r| <= j && r == s[..|r|]
    ensures forall p :: |r| <= p < j ==> IsSpace(s[p])
    ensures r != [] ==> !IsSpace(r[|r| - 1])
    decreases j
  {
    if j > 0 && IsSpace(s[j - 1]) then RStripTo(s, j - 1) else s[..j]
  }

  /** Python `str.lstrip()`: drop the leading whitespace. */
  function LStrip(s: string): (r: string)
    ensures |r| <= |s| && r == s[|s| - |r|..] && IsBlank(s[..|s| - |r|])
    ensures r != [] ==> !IsSpace(r[0])
  {
    var r := LStripFrom(s, 0);
    assert forall p :: 0 <= p < |s| - |r| ==> s[..|s| - |r|][p] == s[p];
    r
  }

  /** Python `str.rstrip()`: drop the trailing whitespace. */
  function RStrip(s: string): (r: string)
    ensures r <= s && IsBlank(s[|r|..])
    ensures r != [] ==> !IsSpace(r[|r| - 1])
  {
    var r := RStripTo(s, |s|);
    assert forall p :: 0 <= p < |s| - |r| ==> s[|r|..][p] == s[|r| + p];
    r
  }

  /** Python `str.strip()` with no argument: the string without its leading
      and trailing whitespace, a contiguous piece of the original. */
  function Strip(s: string): (r: string)
    ensures |r| <= |s| && r <= LStrip(s)
    ensures r == [] <==> IsBlank(s)
    ensures Trimmed(r)
  {
    StripBlank(s);
    RStrip(LStrip(s))
  }

  lemma StripBlank(s: string)
    ensures RStrip(LStrip(s)) == [] <==> IsBlank(s)
  {
    var l := LStrip(s);
    var r := RStrip(l);
    if r == [] {
      forall i | 0 <= i < |s| ensures IsSpace(s[i]) {
        assert s[..|s| - |l|][i] == s[i];
      }
    }
  }

  /** No whitespace at either end: what `strip()` returns. */
  predicate Trimmed(s: string) {
    s == [] || (!IsSpace(s[0]) && !IsSpace(s[|s| - 1]))
  }

  /** Stripping a string without surrounding whitespace changes nothing. */
  lemma StripNoop(s: string)
    requires Trimmed(s)
    ensures Strip(s) == s
  {
  }

  /** `strip()` is idempotent. */
  lemma StripIdempotent(s: string)
    ensures Strip(Strip(s)) == Strip(s)
  {
    StripNoop(Strip(s));
  }

  /** A string is its stripped form between two whitespace-only pieces. */
  lemma StripDecompose(s: string) returns (a: string, b: string)
    ensures s == a + Strip(s) + b && IsBlank(a) && IsBlank(b)
  {
    a, b := StripPieces(s);
  }

  lemma StripPieces(s: string) returns (a: string, b: string)
    ensures s == a + Strip(s) + b
    ensures a == s[..|s| - |LStrip(s)|] && b == LStrip(s)[|RStrip(LStrip(s))|..]
  {
    var l := LStrip(s);
    a := s[..|s| - |l|];
    var r := RStrip(l);
    b := l[|r|..];
    LStripSplit(s);
    RStripSplit(l);
    Reassemble(s, a, l, r, b);
  }

  lemma Reassemble(s: string, a: string, l: string, r: string, b: string)
    requires s == a + l && l == r + b
    ensures s == a + r + b
  {
  }

  lemma LStripSplit(s: string)
    ensures s == s[..|s| - |LStrip(s)|] + LStrip(s)
  {
  }

  lemma RStripSplit(l: string)
    ensures l == RStrip(l) + l[|RStrip(l)|..]
  {
  }

  /** The stripped string is the slice of the original that starts after the
      leading whitespace. */
  lemma StripSlice(s: string)
    ensures |s| - |LStrip(s)| + |Strip(s)| <= |s|
    ensures Strip(s) == s[|s| - |LStrip(s)|..|s| - |LStrip(s)| + |Strip(s)|]
  {
    var a, b := StripPieces(s);
    ConcatMiddle(s, a, Strip(s), b);
  }

  /** The middle of a three-part concatenation is a slice of it. */
  lemma ConcatMiddle(c: string, a: string, r: string, b: string)
    requires c == a + r + b
    ensures |a| + |r| <= |c| && r == c[|a|..|a| + |r|]
  {
  }

  /** The stripped string is a piece of the original. */
  lemma StripContained(s: string)
    ensures Contains(s, Strip(s))
  {
    var k := |s| - |LStrip(s)|;
    StripSlice(s);
    ContainsSlice(s, k, k + |Strip(s)|);
  }

  /** ASCII lower-casing (Python lower-cases all of Unicode; see README). */
  function LowerChar(c: char): char {
    if 'A' <= c <= 'Z' then (c as int + 32) as char else c
  }

  function Lower(s: string): (r: string)
    ensures |r| == |s|
    ensures forall i :: 0 <= i < |s| ==> r[i] == LowerChar(s[i])
  {
    seq(|s|, i requires 0 <= i < |s| => LowerChar(s[i]))
  }

  /** No ASCII capital letter occurs. */
  predicate NoCapital(s: string) {
    forall i :: 0 <= i < |s| ==> !('A' <= s[i] <= 'Z')
  }

  /** Lower-casing leaves no capital, is idempotent, changes a text exactly
      when it has a capital, and maps each capital to its small letter. */
  lemma LowerFacts(s: string)
    ensures NoCapital(Lower(s))
    ensures Lower(Lower(s)) == Lower(s)
    ensures Lower(s) == s <==> NoCapital(s)
    ensures forall i :: 0 <= i < |s| && 'A' <= s[i] <= 'Z' ==> Lower(s)[i] as int - 'a' as int == s[i] as int - 'A' as int
  {
    if Lower(s) == s {
      forall i | 0 <= i < |s| ensures !('A' <= s[i] <= 'Z') {
        assert Lower(s)[i] == s[i];
      }
    }
  }

  function UpperChar(c: char): char {
    if 'a' <= c <= 'z' then (c as int - 32) as char else c
  }

  function Upper(s: string): (r: string)
    ensures |r| == |s|
    ensures forall i :: 0 <= i < |s| ==> r[i] == UpperChar(s[i])
  {
    seq(|s|, i requires 0 <= i < |s| => UpperChar(s[i]))
  }

  /** Python's `sub in s`. */
  predicate Contains(s: string, sub: string) {
    exists i :: 0 <= i <= |s| - |sub| && sub <= s[i..]
  }

  /** `sub` occurs in `s` at position i. */
  predicate At(s: string, sub: string, i: nat) {
    i + |sub| <= |s| && s[i..i + |sub|] == sub
  }

  lemma ContainsAt(s: string, sub: string, i: nat)
    requires i + |sub| <= |s| && s[i..i + |sub|] == sub
    ensures Contains(s, sub)
  {
    assert sub <= s[i..];
  }

  /** Every slice of a string is contained in it. */
  lemma ContainsSlice(s: string, i: nat, j: nat)
    requires i <= j <= |s|
    ensures Contains(s, s[i..j])
  {
    ContainsAt(s, s[i..j], i);
  }

  /** Containment is transitive. */
  lemma ContainsTrans(a: string, b: string, c: string)
    requires Contains(a, b) && Contains(b, c)
    ensures Contains(a, c)
  {
    var i := ContainsIndex(a, b);
    var j := ContainsIndex(b, c);
    forall p | 0 <= p < |c| ensures a[i + j + p] == c[p] {
      assert b[j + p] == c[p];
      assert a[i + (j + p)] == b[j + p];
    }
    assert a[i + j..i + j + |c|] == c;
    ContainsAt(a, c, i + j);
  }

  /** A position where a contained string occurs, character by character. */
  lemma ContainsIndex(s: string, sub: string) returns (i: nat)
    requires Contains(s, sub)
    ensures i + |sub| <= |s| && forall p :: 0 <= p < |sub| ==> s[i + p] == sub[p]
  {
    i :| 0 <= i <= |s| - |sub| && sub <= s[i..];
    forall p | 0 <= p < |sub| ensures s[i + p] == sub[p] {
      assert sub[p] == s[i..][p];
    }
  }

  lemma ContainsLeft(a: string, b: string, sub: string)
    requires Contains(a, sub)
    ensures Contains(a + b, sub)
  {
    var i :| 0 <= i <= |a| - |sub| && sub <= a[i..];
    assert (a + b)[i..i + |sub|] == a[i..i + |sub|];
    ContainsAt(a + b, sub, i);
  }

  lemma ContainsRight(a: string, b: string, sub: string)
    requires Contains(b, sub)
    ensures Contains(a + b, sub)
  {
    var i :| 0 <= i <= |b| - |sub| && sub <= b[i..];
    assert (a + b)[|a| + i..|a| + i + |sub|] == b[i..i + |sub|];
    ContainsAt(a + b, sub, |a| + i);
  }

  /** Python's `sep.join(parts)`. */
  function Join(sep: string, parts: seq<string>): string
    decreases |parts|
  {
    if |parts| == 0 then ""
    else if |parts| == 1 then parts[0]
    else parts[0] + sep + Join(sep, parts[1..])
  }

  /** Joining distributes over concatenation of the part lists. */
  lemma JoinAppend(sep: string, a: seq<string>, b: seq<string>)
    requires a != [] && b != []
    ensures Join(sep, a + b) == Join(sep, a) + sep + Join(sep, b)
    decreases |a|
  {
    if |a| == 1 {
      assert (a + b)[1..] == b;
    } else {
      assert (a + b)[1..] == a[1..] + b;
      JoinAppend(sep, a[1..], b);
    }
  }

  /** Every part occurs in the joined string. */
  lemma {:induction false} JoinContainsPart(sep: string, parts: seq<string>, k: nat)
    requires k < |parts|
    ensures Contains(Join(sep, parts), parts[k])
    decreases |parts|
  {
    if |parts| == 1 {
      ContainsAt(parts[0], parts[0], 0);
    } else if k == 0 {
      ContainsAt(parts[0], parts[0], 0);
      ContainsLeft(parts[0], sep + Join(sep, parts[1..]), parts[0]);
      assert parts[0] + (sep + Join(sep, parts[1..])) == Join(sep, parts);
    } else {
      JoinContainsPart(sep, parts[1..], k - 1);
      ContainsRight(parts[0] + sep, Join(sep, parts[1..]), parts[k]);
    }
  }

  lemma JoinExtendHead(sep: string, x: string, r: seq<string>)
    requires r != []
    ensures Join(sep, [x + r[0]] + r[1..]) == x + Join(sep, r)
  {
    var l := [x + r[0]] + r[1..];
    assert l[1..] == r[1..];
  }

  /** The text a `+=` loop accumulates from the parts, in order. */
  function Concat(parts: seq<string>): string
    decreases |parts|
  {
    if parts == [] then "" else Concat(parts[..|parts| - 1]) + parts[|parts| - 1]
  }

  /** Accumulating two lists of parts is accumulating each, in order. */
  lemma {:induction false} ConcatAppend(a: seq<string>, b: seq<string>)
    ensures Concat(a + b) == Concat(a) + Concat(b)
    decreases |b|
  {
    if b == [] {
      assert a + b == a;
    } else {
      var b' := b[..|b| - 1];
      var x := b[|b| - 1];
      assert (a + b)[..|a + b| - 1] == a + b';
      assert (a + b)[|a + b| - 1] == x;
      ConcatAppend(a, b');
      assert Concat(a + b) == Concat(a + b') + x;
      assert Concat(b) == Concat(b') + x;
    }
  }

  /** Every part occurs in the accumulated text. */
  lemma {:induction false} ConcatContainsPart(parts: seq<string>, k: nat)
    requires k < |parts|
    ensures Contains(Concat(parts), parts[k])
    decreases |parts|
  {
    var init := parts[..|parts| - 1];
    var last := parts[|parts| - 1];
    if k == |parts| - 1 {
      ContainsAt(Concat(init) + last, last, |Concat(init)|);
    } else {
      assert init[k] == parts[k];
      ConcatContainsPart(init, k);
      ContainsLeft(Concat(init), last, parts[k]);
    }
  }

  /** Python's `s.split(sep)` for a non-empty separator: the pieces between
      the non-overlapping occurrences of `sep`, found left to right. */
  function SplitOn(s: string, sep: string): (r: seq<string>)
    requires sep != []
    ensures |r| >= 1 && r[0] <= s
    decreases |s|
  {
    if |s| < |sep| then [s]
    else if sep <= s then [""] + SplitOn(s[|sep|..], sep)
    else
      var rest := SplitOn(s[1..], sep);
      [[s[0]] + rest[0]] + rest[1..]
  }

  /** `sep.join(s.split(sep)) == s`. */
  lemma {:induction false} SplitJoin(s: string, sep: string)
    requires sep != []
    ensures Join(sep, SplitOn(s, sep)) == s
    decreases |s|
  {
    if |s| < |sep| {
    } else if sep <= s {
      SplitJoin(s[|sep|..], sep);
      var r := SplitOn(s[|sep|..], sep);
      assert SplitOn(s, sep) == [""] + r;
      assert ([""] + r)[1..] == r;
      assert s == sep + s[|sep|..];
    } else {
      SplitJoin(s[1..], sep);
      JoinExtendHead(sep, [s[0]], SplitOn(s[1..], sep));
      assert s == [s[0]] + s[1..];
    }
  }

  /** No piece of a split contains the separator. */
  lemma {:induction false} SplitPiecesFree(s: string, sep: string)
    requires sep != []
    ensures forall k :: 0 <= k < |SplitOn(s, sep)| ==> !Contains(SplitOn(s, sep)[k], sep)
    decreases |s|
  {
    var r := SplitOn(s, sep);
    if |s| < |sep| {
      NotContainsShort(s, sep);
    } else if sep <= s {
      SplitPiecesFree(s[|sep|..], sep);
      NotContainsShort("", sep);
      forall k | 0 <= k < |r| ensures !Contains(r[k], sep) {
        if k > 0 { assert r[k] == SplitOn(s[|sep|..], sep)[k - 1]; }
      }
    } else {
      SplitPiecesFree(s[1..], sep);
      var rest := SplitOn(s[1..], sep);
      forall k | 0 <= k < |r| ensures !Contains(r[k], sep) {
        if k > 0 {
          assert r[k] == rest[k];
        } else {
          HeadPieceFree(s, sep, rest[0]);
        }
      }
    }
  }

  lemma NotContainsShort(s: string, sep: string)
    requires |s| < |sep|
    ensures !Contains(s, sep)
  {
  }

  lemma HeadPieceFree(s: string, sep: string, p: string)
    requires s != [] && !(sep <= s) && !Contains(p, sep)
    requires p <= s[1..]
    ensures !Contains([s[0]] + p, sep)
  {
    var q := [s[0]] + p;
    forall i | 0 <= i <= |q| - |sep| ensures !(sep <= q[i..]) {
      if i == 0 {
        assert forall j :: 0 <= j < |q| ==> q[j] == s[j];
        var j :| 0 <= j < |sep| && s[j] != sep[j];
        assert q[i..][j] != sep[j];
      } else {
        assert q[i..] == p[i - 1..];
      }
    }
  }

  /** The first piece of a split is the text before the first occurrence. */
  lemma {:induction false} SplitHeadBefore(s: string, sep: string, i: nat)
    requires sep != [] && i + |sep| <= |s| && s[i..i + |sep|] == sep
    requires forall j :: 0 <= j < i ==> !(sep <= s[j..])
    ensures SplitOn(s, sep)[0] == s[..i]
    decreases i
  {
    if i == 0 {
      assert sep <= s;
    } else {
      assert !(sep <= s[0..]);
      assert s[0..] == s;
      forall j | 0 <= j < i - 1 ensures !(sep <= s[1..][j..]) {
        assert s[1..][j..] == s[j + 1..];
      }
      assert s[1..][i - 1..i - 1 + |sep|] == sep;
      SplitHeadBefore(s[1..], sep, i - 1);
    }
  }

  /** Python's `s.replace(pat, rep)`: every non-overlapping occurrence of
      `pat`, found left to right, is replaced. */
  function ReplaceAll(s: string, pat: string, rep: string): string
    requires pat != []
    decreases |s|
  {
    if |s| < |pat| then s
    else if pat <= s then rep + ReplaceAll(s[|pat|..], pat, rep)
    else [s[0]] + ReplaceAll(s[1..], pat, rep)
  }

  /** `s.replace(pat, rep) == rep.join(s.split(pat))`: replacement rewrites
      exactly the separators of the split, so no piece keeps an occurrence. */
  lemma {:induction false} ReplaceIsSplitJoin(s: string, pat: string, rep: string)
    requires pat != []
    ensures ReplaceAll(s, pat, rep) == Join(rep, SplitOn(s, pat))
    decreases |s|
  {
    if |s| < |pat| {
    } else if pat <= s {
      ReplaceIsSplitJoin(s[|pat|..], pat, rep);
      var r := SplitOn(s[|pat|..], pat);
      assert ([""] + r)[1..] == r;
    } else {
      ReplaceIsSplitJoin(s[1..], pat, rep);
      JoinExtendHead(rep, [s[0]], SplitOn(s[1..], pat));
    }
  }

  /** A string without the pattern is left unchanged by replacement. */
  lemma ReplaceAbsent(s: string, pat: string, rep: string)
    requires pat != [] && !Contains(s, pat)
    ensures ReplaceAll(s, pat, rep) == s
    decreases |s|
  {
    if |s| >= |pat| {
      assert !(pat <= s[0..]);
      assert s[0..] == s;
      ReplaceAbsent(s[1..], pat, rep);
    }
  }

  /** Where the pattern occurs, its replacement occurs in the result. */
  lemma {:induction false} ReplaceKeepsRep(s: string, pat: string, rep: string)
    requires pat != [] && Contains(s, pat)
    ensures Contains(ReplaceAll(s, pat, rep), rep)
    decreases |s|
  {
    if pat <= s {
      ContainsAt(rep + ReplaceAll(s[|pat|..], pat, rep), rep, 0);
    } else {
      var i :| 0 <= i <= |s| - |pat| && pat <= s[i..];
      assert i != 0;
      assert s[1..][i - 1..] == s[i..];
      ReplaceKeepsRep(s[1..], pat, rep);
      ContainsRight([s[0]], ReplaceAll(s[1..], pat, rep), rep);
    }
  }

  /** Replacement either leaves a text without the pattern alone or puts
      the replacement in. */
  lemma ReplaceOutcome(s: string, pat: string, rep: string)
    requires pat != []
    ensures Contains(s, pat) ==> Contains(ReplaceAll(s, pat, rep), rep)
    ensures !Contains(s, pat) ==> ReplaceAll(s, pat, rep) == s
  {
    if Contains(s, pat) {
      ReplaceKeepsRep(s, pat, rep);
    } else {
      ReplaceAbsent(s, pat, rep);
    }
  }

  /** A text free of the pattern's first character, followed by the
      pattern, keeps the text and has the pattern replaced. */
  lemma {:induction false} ReplaceLeading(a: string, pat: string, rep: string, rest: string)
    requires pat != [] && pat[0] !in a
    ensures ReplaceAll(a + pat + rest, pat, rep) == a + rep + ReplaceAll(rest, pat, rep)
    decreases |a|
  {
    var s := a + pat + rest;
    var r := ReplaceAll(rest, pat, rep);
    if a == [] {
      assert s == pat + rest;
      assert pat <= s;
      assert s[|pat|..] == rest;
    } else {
      assert |s| >= |pat|;
      assert s[0] == a[0] && s[0] != pat[0];
      assert !(pat <= s);
      assert ReplaceAll(s, pat, rep) == [s[0]] + ReplaceAll(s[1..], pat, rep);
      assert s[1..] == a[1..] + pat + rest;
      assert pat[0] !in a[1..];
      ReplaceLeading(a[1..], pat, rep, rest);
      assert [a[0]] + (a[1..] + rep + r) == a + rep + r;
    }
  }

  /** The line boundaries of Python's `str.splitlines()`. */
  predicate IsLineBreak(c: char) {
    ('\n' <= c <= '\r') || ('\U{1C}' <= c <= '\U{1E}')
    || c == '\U{85}' || c == '\U{2028}' || c == '\U{2029}'
  }

  /** `s.splitlines()[0]` for a non-empty `s`: the text before the first line
      boundary. (For the empty string `splitlines()` is empty and `[0]` raises;
      callers model that case themselves.) */
  function FirstLine(s: string): (r: string)
    ensures r <= s
    ensures forall i :: 0 <= i < |r| ==> !IsLineBreak(r[i])
    ensures |r| < |s| ==> IsLineBreak(s[|r|])
    decreases |s|
  {
    if s == [] || IsLineBreak(s[0]) then "" else [s[0]] + FirstLine(s[1..])
  }

  /** ASCII decimal digit. */
  predicate IsDigit(c: char) {
    '0' <= c <= '9'
  }

  predicate AllDigits(s: string) {
    forall i :: 0 <= i < |s| ==> IsDigit(s[i])
  }

  function DigitChar(d: nat): char
    requires d < 10
  {
    ('0' as int + d) as char
  }

  /** `str(n)` for a natural number. */
  function NatToString(n: nat): (r: string)
    ensures |r| >= 1 && AllDigits(r)
    ensures n > 0 ==> r[0] != '0'
    decreases n
  {
    if n < 10 then [DigitChar(n)] else NatToString(n / 10) + [DigitChar(n % 10)]
  }

  /** `str(i)` for any Python int. */
  function IntToString(i: int): string {
    if i < 0 then "-" + NatToString(-i) else NatToString(i)
  }

  /** The value of a string of decimal digits. */
  function DigitsValue(s: string): nat
    requires AllDigits(s)
    decreases |s|
  {
    if s == [] then 0
    else DigitsValue(s[..|s| - 1]) * 10 + (s[|s| - 1] as int - '0' as int)
  }

  /** Decimal rendering is read back exactly. */
  lemma {:induction false} NatToStringValue(n: nat)
    ensures DigitsValue(NatToString(n)) == n
    decreases n
  {
    if n >= 10 {
      NatToStringValue(n / 10);
      var r := NatToString(n);
      assert r[..|r| - 1] == NatToString(n / 10);
    }
  }

  /** `f"{n:03d}"`: at least three digits, zero-padded on the left. */
  function Pad3(n: nat): (r: string)
    ensures |r| >= 3 && AllDigits(r)
  {
    var d := NatToString(n);
    if |d| >= 3 then d else seq(3 - |d|, _ => '0') + d
  }

  lemma LeadingZerosValue(z: string, d: string)
    requires AllDigits(d) && forall i :: 0 <= i < |z| ==> z[i] == '0'
    ensures AllDigits(z + d) && DigitsValue(z + d) == DigitsValue(d)
    decreases |d|
  {
    if d == [] {
      assert z + d == z;
      ZerosValue(z);
    } else {
      assert (z + d)[..|z + d| - 1] == z + d[..|d| - 1];
      LeadingZerosValue(z, d[..|d| - 1]);
    }
  }

  lemma ZerosValue(z: string)
    requires forall i :: 0 <= i < |z| ==> z[i] == '0'
    ensures AllDigits(z) && DigitsValue(z) == 0
    decreases |z|
  {
    if z != [] {
      ZerosValue(z[..|z| - 1]);
    }
  }

  /** Zero padding is read back exactly, so different numbers never share a
      padded rendering. */
  lemma Pad3Value(n: nat)
    ensures DigitsValue(Pad3(n)) == n
  {
    NatToStringValue(n);
    var d := NatToString(n);
    if |d| < 3 {
      LeadingZerosValue(seq(3 - |d|, _ => '0'), d);
    }
  }

  /** `f"{n:,}"` for a natural number: groups of three digits separated by
      commas. */
  function WithCommas(n: nat): (r: string)
    ensures |r| >= 1
    decreases n
  {
    if n < 1000 then NatToString(n)
    else WithCommas(n / 1000) + "," + Pad3(n % 1000)
  }

}
