/** The pure helpers of the question-answering command line
    (src/rag/qa_cli.py): quote stripping of an extractive answer and the
    decision logic of the humaniser around its language-model call. */
module QaCli {
  import opened Wrappers
  import opened Text

  predicate IsQuoteChar(c: char) {
    c == '\'' || c == '"'
  }

  /** The trimmed text is wrapped in one matching pair of quotes. */
  predicate Quoted(t: string) {
    |t| >= 2 && IsQuoteChar(t[0]) && t[|t| - 1] == t[0]
  }

  /** `_strip_quotes`: trim, then remove one pair of matching outer quotes and
      trim again. */
  function StripQuotes(s: string): (r: string)
    ensures |r| <= |s|
    ensures !Quoted(Strip(s)) ==> r == Strip(s)
    ensures Quoted(Strip(s)) ==> |r| <= |Strip(s)| - 2 && Contains(Strip(s), r)
    ensures Trimmed(r)
  {
    var t := Strip(s);
    if Quoted(t) then
      var inner := t[1..|t| - 1];
      UnquoteInner(t);
      Strip(inner)
    else t
  }

  lemma UnquoteInner(t: string)
    requires |t| >= 2
    ensures var u := Strip(t[1..|t| - 1]); Trimmed(u) && |u| <= |t| - 2 && Contains(t, u)
  {
    var inner := t[1..|t| - 1];
    StripContained(inner);
    ContainsSlice(t, 1, |t| - 1);
    ContainsTrans(t, inner, Strip(inner));
  }

  /** Quoting a text and stripping the quotes again gives the trimmed text:
      `_strip_quotes('"' + s + '"') == s.strip()`, and likewise for single
      quotes. */
  lemma UnquoteQuoted(q: char, s: string)
    requires IsQuoteChar(q)
    ensures StripQuotes([q] + s + [q]) == Strip(s)
  {
    var w := [q] + s + [q];
    assert w[0] == q && w[|w| - 1] == q;
    assert !IsSpace(q);
    StripNoop(w);
    assert Strip(w) == w;
    assert Quoted(w);
    assert w[1..|w| - 1] == s;
  }

  /** A text already free of outer whitespace and of a matching quote pair
      is returned unchanged. */
  lemma StripQuotesNoop(s: string)
    requires Trimmed(s) && !Quoted(s)
    ensures StripQuotes(s) == s
  {
    StripNoop(s);
  }

  /** The fixed reply of the humaniser when there is no evidence. */
  const NotFoundMessage: string := "I couldn’t find this in the document."

  /** The fixed message has no surrounding whitespace. */
  lemma NotFoundStripped()
    ensures Trimmed(NotFoundMessage)
  {
    var m := NotFoundMessage;
    assert m[0] == 'I' && m[|m| - 1] == '.';
  }

  /** `makehuman`: no evidence after quote stripping gives the fixed message;
      otherwise the stripped model reply when there is a non-blank one, else
      the evidence itself. `reply` is None when no key is configured or the
      call failed. */
  function MakeHuman(evidence: string, reply: Option<string>): (r: string)
    ensures StripQuotes(evidence) == "" ==> r == NotFoundMessage
    ensures r != "" && Trimmed(r)
    ensures StripQuotes(evidence) != "" && (reply.None? || Strip(reply.value) == "") ==> r == StripQuotes(evidence)
    ensures StripQuotes(evidence) != "" && reply.Some? && Strip(reply.value) != "" ==> r == Strip(reply.value)
  {
    Humanised(StripQuotes(evidence), reply)
  }

  /** The choice `makehuman` makes once the evidence is stripped. */
  function Humanised(ev: string, reply: Option<string>): (r: string)
    requires Trimmed(ev)
    ensures ev == "" ==> r == NotFoundMessage
    ensures r != "" && Trimmed(r)
    ensures ev != "" && (reply.None? || Strip(reply.value) == "") ==> r == ev
    ensures ev != "" && reply.Some? && Strip(reply.value) != "" ==> r == Strip(reply.value)
  {
    if ev == "" then NotFoundStripped(); NotFoundMessage
    else if reply.Some? && Strip(reply.value) != "" then Strip(reply.value)
    else ev
  }
}
