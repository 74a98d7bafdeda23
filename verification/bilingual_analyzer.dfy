/** The reassembly of a full analysis from its section dictionary
    (src/bilingual_analyzer.py, `_reconstruct_analysis`): the seven
    sections in report order, each under its header, blank-line separated. */
module BilingualAnalyzer {
  import opened Text
  import opened AnalysisSections

  /** Section n takes part: its key is present with a non-empty text. */
  predicate Kept(sections: map<string, string>, n: nat)
    requires n < SectionCount
  {
    Keys[n] in sections && sections[Keys[n]] != ""
  }

  /** Section n's text under its header, unless it already starts with it. */
  function Part(content: string, n: nat): (r: string)
    requires n < SectionCount
    ensures Header(n) <= r
    ensures |content| <= |r| && r[|r| - |content|..] == content
    ensures |r| <= |Header(n)| + 1 + |content|
  {
    if Header(n) <= content then content else Header(n) + "\n" + content
  }

  /** A text that already has its header is not given a second one. */
  lemma PartIdempotent(content: string, n: nat)
    requires n < SectionCount
    ensures Part(Part(content, n), n) == Part(content, n)
  {
  }

  /** The kept sections from n on, in increasing order. */
  function KeptFrom(sections: map<string, string>, n: nat): (r: seq<nat>)
    requires n <= SectionCount
    ensures forall j :: 0 <= j < |r| ==> n <= r[j] < SectionCount && Kept(sections, r[j])
    ensures forall m :: n <= m < SectionCount && Kept(sections, m) ==> m in r
    ensures forall i, j :: 0 <= i < j < |r| ==> r[i] < r[j]
    decreases SectionCount - n
  {
    if n == SectionCount then []
    else (if Kept(sections, n) then [n] else []) + KeptFrom(sections, n + 1)
  }

  /** The parts of the kept sections, in report order. */
  function Parts(sections: map<string, string>): (r: seq<string>)
    ensures |r| == |KeptFrom(sections, 0)|
  {
    var ks := KeptFrom(sections, 0);
    seq(|ks|, j requires 0 <= j < |ks| => Part(sections[Keys[ks[j]]], ks[j]))
  }

  /** `_reconstruct_analysis`. */
  function Reconstruct(sections: map<string, string>): (r: string)
    ensures r == "" <==> forall n :: 0 <= n < SectionCount ==> !Kept(sections, n)
  {
    NothingKeptEmpty(sections);
    Join("\n\n", Parts(sections))
  }

  /** The parts join to the empty text exactly when no section is kept:
      every part starts with a header. */
  lemma NothingKeptEmpty(sections: map<string, string>)
    ensures Join("\n\n", Parts(sections)) == "" <==> forall n :: 0 <= n < SectionCount ==> !Kept(sections, n)
  {
    var ps := Parts(sections);
    if ps != [] {
      JoinContainsPart("\n\n", ps, 0);
      assert |ps[0]| > 0;
    } else {
      assert KeptFrom(sections, 0) == [];
    }
  }

  /** Each kept section appears in the reassembly under its header. */
  lemma KeptSectionShown(sections: map<string, string>, n: nat)
    requires n < SectionCount && Kept(sections, n)
    ensures Contains(Reconstruct(sections), Part(sections[Keys[n]], n))
  {
    var ks := KeptFrom(sections, 0);
    var j :| 0 <= j < |ks| && ks[j] == n;
    JoinContainsPart("\n\n", Parts(sections), j);
  }

  /** Only the kept sections' texts matter: entries under other keys, and
      empty sections, are ignored. */
  lemma {:induction false} KeptAgree(s: map<string, string>, t: map<string, string>, n: nat)
    requires n <= SectionCount
    requires forall m :: n <= m < SectionCount ==> (Kept(s, m) <==> Kept(t, m))
    ensures KeptFrom(s, n) == KeptFrom(t, n)
    decreases SectionCount - n
  {
    if n < SectionCount {
      KeptAgree(s, t, n + 1);
    }
  }

  lemma PartsAgree(s: map<string, string>, t: map<string, string>)
    requires forall m :: 0 <= m < SectionCount ==>
      (Kept(s, m) <==> Kept(t, m)) && (Kept(s, m) ==> s[Keys[m]] == t[Keys[m]])
    ensures Parts(s) == Parts(t)
  {
    KeptAgree(s, t, 0);
  }

  lemma OtherKeysIgnored(sections: map<string, string>, k: string, v: string)
    requires k !in Keys
    ensures Reconstruct(sections[k := v]) == Reconstruct(sections)
  {
    PartsAgree(sections[k := v], sections);
  }

  /** An empty section is left out as if it were missing. */
  lemma EmptySectionIgnored(sections: map<string, string>, n: nat)
    requires n < SectionCount
    ensures Reconstruct(sections[Keys[n] := ""]) == Reconstruct(sections - {Keys[n]})
  {
    KeysDistinct();
    PartsAgree(sections[Keys[n] := ""], sections - {Keys[n]});
  }
}
