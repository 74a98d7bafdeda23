/** The contract summary generator (src/contract_summary_generator.py):
    analysis files are grouped by the contract they describe, each version's
    sections are extracted, and the summary prompt is assembled from a
    template. Directory listing, file reads, the clock and the language
    model are parameters. */
module ContractSummary {
  import opened Wrappers
  import opened Text
  import opened Paths
  import opened PyDict
  import opened AnalysisSections
  import Analysis

  // ---------------------------------------------------------------------------
  // The base name of an analysis file
  // ---------------------------------------------------------------------------

  /** `_analysis_` followed by eight digits, `_` and six digits. */
  const StampLen: nat := 25

  /** The character at offset o of a timestamped marker. */
  predicate StampChar(o: nat, c: char) {
    if o < |Analysis.Marker| then c == Analysis.Marker[o]
    else if o == |Analysis.Marker| + 8 then c == '_'
    else IsDigit(c)
  }

  predicate StampShaped(w: string) {
    |w| == StampLen && forall o :: 0 <= o < StampLen ==> StampChar(o, w[o])
  }

  /** `_analysis_\d{8}_\d{6}` matches at position i. */
  predicate StampAt(s: string, i: nat) {
    i + StampLen <= |s| && StampShaped(s[i..i + StampLen])
  }

  /** `s` holds no timestamped marker. */
  predicate StampFree(s: string) {
    forall i :: 0 <= i < |s| ==> !StampAt(s, i)
  }

  /** The marker and a timestamp the analysis driver writes match the
      pattern. */
  lemma StampOfOutput(ts: string)
    requires Analysis.Stamp(ts)
    ensures StampShaped(Analysis.Marker + ts)
  {
    var w := Analysis.Marker + ts;
    assert forall o :: |Analysis.Marker| <= o < StampLen ==> w[o] == ts[o - |Analysis.Marker|];
  }

  /** `re.sub(r'_analysis_\d{8}_\d{6}', '', s)`: matches are removed left to
      right, the scan resuming after each. */
  function RemoveStamps(s: string): (r: string)
    ensures |r| <= |s|
    decreases |s|
  {
    if s == [] then []
    else if StampAt(s, 0) then RemoveStamps(s[StampLen..])
    else [s[0]] + RemoveStamps(s[1..])
  }

  /** A prefix where no match starts is kept as it is. */
  lemma {:induction false} RemoveStampsPrefix(x: string, y: string)
    requires forall i :: 0 <= i < |x| ==> !StampAt(x + y, i)
    ensures RemoveStamps(x + y) == x + RemoveStamps(y)
    decreases |x|
  {
    if x == [] {
      assert x + y == y;
    } else {
      var s := x + y;
      assert !StampAt(s, 0);
      assert s[1..] == x[1..] + y;
      forall i | 0 <= i < |x[1..]| ensures !StampAt(x[1..] + y, i) {
        assert !StampAt(s, i + 1);
        if i + StampLen <= |s[1..]| {
          assert s[1..][i..i + StampLen] == s[i + 1..i + 1 + StampLen];
        }
      }
      RemoveStampsPrefix(x[1..], y);
    }
  }

  /** A stamp-free text followed by an underscore and a non-digit: no match
      can straddle the boundary, because an underscore in the marker or the
      timestamp is followed by a digit. */
  lemma NoStraddle(x: string, y: string, i: nat)
    requires StampFree(x) && i < |x|
    requires |y| >= 2 && y[0] == '_' && !IsDigit(y[1])
    ensures !StampAt(x + y, i)
  {
    var s := x + y;
    if i + StampLen <= |x| {
      assert s[i..i + StampLen] == x[i..i + StampLen];
      assert !StampAt(x, i);
    } else if i + StampLen <= |s| {
      var w := s[i..i + StampLen];
      var o := |x| - i;
      assert w[o] == '_';
      assert !StampChar(o, '_') || (o + 1 < StampLen && w[o + 1] == y[1] && !StampChar(o + 1, y[1]));
    }
  }

  /** The language ending `_(arabic|english)$`, in any case. */
  predicate LanguageSuffixed(b: string) {
    || (|b| >= 7 && Upper(b[|b| - 7..]) == "_ARABIC")
    || (|b| >= 8 && Upper(b[|b| - 8..]) == "_ENGLISH")
  }

  /** `re.sub(r'_(arabic|english)$', '', b, flags=re.IGNORECASE)`. */
  function StripLanguage(b: string): (r: string)
    ensures LanguageSuffixed(b) ==> |r| < |b| && r == b[..|r|]
    ensures !LanguageSuffixed(b) ==> r == b
  {
    if |b| >= 7 && Upper(b[|b| - 7..]) == "_ARABIC" then b[..|b| - 7]
    else if |b| >= 8 && Upper(b[|b| - 8..]) == "_ENGLISH" then b[..|b| - 8]
    else b
  }

  /** The contract an analysis file belongs to: its stem without timestamps
      and then without a language ending. */
  function GroupKey(name: string): string {
    StripLanguage(RemoveStamps(Stem(name)))
  }

  /** The analyses of one contract, written by the analysis driver for the
      Arabic version, the English version or an unmarked document, all
      belong to that contract. */
  lemma KeyOfOutput(x: string, suffix: string, ts: string)
    requires Analysis.Stamp(ts) && StampFree(x) && !LanguageSuffixed(x)
    requires suffix == "_arabic" || suffix == "_english" || suffix == ""
    ensures GroupKey(Analysis.OutputName(x + suffix, ts)) == x
  {
    Analysis.OutputNameStem(x + suffix, ts);
    var y := suffix + Analysis.Marker + ts;
    TailOpensPlain(suffix, ts);
    RemoveStampsOfTail(suffix, ts);
    forall i | 0 <= i < |x| ensures !StampAt(x + y, i) {
      NoStraddle(x, y, i);
    }
    RemoveStampsPrefix(x, y);
    Regroup(x, suffix, Analysis.Marker, ts);
    StripLanguageOf(x, suffix);
  }

  /** The tail after the contract's stem opens with an underscore and a
      letter. */
  lemma TailOpensPlain(suffix: string, ts: string)
    requires suffix == "_arabic" || suffix == "_english" || suffix == ""
    ensures var y := suffix + Analysis.Marker + ts;
      |y| >= 2 && y[0] == '_' && !IsDigit(y[1])
  {
    var y := suffix + Analysis.Marker + ts;
    if suffix == "" {
      assert y[..2] == Analysis.Marker[..2];
    } else {
      assert y[..2] == suffix[..2];
    }
  }

  lemma Regroup(a: string, b: string, c: string, d: string)
    ensures a + b + c + d == a + (b + c + d)
  {
  }

  /** The language ending and the timestamped marker leave the ending. */
  lemma RemoveStampsOfTail(suffix: string, ts: string)
    requires Analysis.Stamp(ts)
    requires suffix == "_arabic" || suffix == "_english" || suffix == ""
    ensures RemoveStamps(suffix + Analysis.Marker + ts) == suffix
  {
    var z := Analysis.Marker + ts;
    StampOfOutput(ts);
    assert z[..StampLen] == z && z[StampLen..] == [];
    assert StampAt(z, 0);
    assert RemoveStamps(z) == [];
    if suffix != "" {
      forall i | 0 <= i < |suffix| ensures !StampAt(suffix + z, i) {
        NoStraddle(suffix, z, i);
      }
      RemoveStampsPrefix(suffix, z);
      assert suffix + Analysis.Marker + ts == suffix + z;
      assert suffix + [] == suffix;
    } else {
      assert suffix + z == z;
    }
  }

  /** Stripping the language ending gives back the contract name. */
  lemma StripLanguageOf(x: string, suffix: string)
    requires !LanguageSuffixed(x)
    requires suffix == "_arabic" || suffix == "_english" || suffix == ""
    ensures StripLanguage(x + suffix) == x
  {
    if suffix == "_arabic" {
      StripArabic(x);
    } else if suffix == "_english" {
      StripEnglish(x);
    } else {
      assert x + suffix == x;
    }
  }

  lemma StripArabic(x: string)
    ensures StripLanguage(x + "_arabic") == x
  {
    var b := x + "_arabic";
    assert b[|b| - 7..] == "_arabic";
    assert Upper("_arabic") == "_ARABIC";
    assert b[..|b| - 7] == x;
  }

  lemma StripEnglish(x: string)
    ensures StripLanguage(x + "_english") == x
  {
    var b := x + "_english";
    assert b[|b| - 7..] == "english";
    assert Upper("english")[0] == 'E';
    assert b[|b| - 8..] == "_english";
    assert Upper("_english") == "_ENGLISH";
    assert b[..|b| - 8] == x;
  }

  // ---------------------------------------------------------------------------
  // group_related_documents
  // ---------------------------------------------------------------------------

  /** Contract names in insertion order and each contract's files. */
  datatype Groups = Groups(keys: seq<string>, members: map<string, seq<string>>)

  /** The contract of each file, in order. */
  function KeysOf(files: seq<string>, key: string -> string): (r: seq<string>)
    ensures |r| == |files| && forall i :: 0 <= i < |files| ==> r[i] == key(files[i])
  {
    seq(|files|, i requires 0 <= i < |files| => key(files[i]))
  }

  /** Reference: the files of contract k, in their order. */
  function Members(files: seq<string>, key: string -> string, k: string): (r: seq<string>)
    ensures |r| <= |files|
    ensures forall f :: f in r <==> f in files && key(f) == k
    decreases |files|
  {
    if files == [] then []
    else
      var last := files[|files| - 1];
      assert files == files[..|files| - 1] + [last];
      Members(files[..|files| - 1], key, k) + (if key(last) == k then [last] else [])
  }

  /** `g` holds exactly the grouping of `files`: contracts in order of first
      appearance, each with its files in order. */
  ghost predicate GroupedAs(g: Groups, files: seq<string>, key: string -> string) {
    && g.keys == Dedup(KeysOf(files, key))
    && (forall k :: k in g.members <==> k in g.keys)
    && (forall k :: k in g.members ==> g.members[k] == Members(files, key, k) && g.members[k] != [])
  }

  /** One step of the loop: `f` appended to its contract's list. */
  function Add(g: Groups, f: string, key: string -> string): Groups {
    var k := key(f);
    if k in g.members then Groups(g.keys, g.members[k := g.members[k] + [f]])
    else Groups(g.keys + [k], g.members[k := [f]])
  }

  lemma AddPreserves(g: Groups, init: seq<string>, f: string, key: string -> string)
    requires GroupedAs(g, init, key)
    ensures GroupedAs(Add(g, f, key), init + [f], key)
  {
    AddKeys(g, init, f, key);
    AddOwnGroup(g, init, f, key);
    AddOtherGroups(g, init, f, key);
  }

  lemma AddKeys(g: Groups, init: seq<string>, f: string, key: string -> string)
    requires GroupedAs(g, init, key)
    ensures Add(g, f, key).keys == Dedup(KeysOf(init + [f], key))
    ensures forall k :: k in Add(g, f, key).members <==> k in Add(g, f, key).keys
  {
    GroupStep(init, f, key);
  }

  lemma AddOwnGroup(g: Groups, init: seq<string>, f: string, key: string -> string)
    requires GroupedAs(g, init, key)
    ensures key(f) in Add(g, f, key).members
    ensures Add(g, f, key).members[key(f)] == Members(init + [f], key, key(f))
    ensures Add(g, f, key).members[key(f)] != []
  {
    GroupStep(init, f, key);
    MembersStep(init, f, key, key(f));
    if key(f) !in g.members {
      NoMembersOutside(init, key, key(f));
    }
  }

  lemma AddOtherGroups(g: Groups, init: seq<string>, f: string, key: string -> string)
    requires GroupedAs(g, init, key)
    ensures forall k :: k in Add(g, f, key).members && k != key(f) ==>
      Add(g, f, key).members[k] == Members(init + [f], key, k) && Add(g, f, key).members[k] != []
  {
    var g2 := Add(g, f, key);
    forall k | k in g2.members && k != key(f)
      ensures g2.members[k] == Members(init + [f], key, k) && g2.members[k] != []
    {
      MembersStep(init, f, key, k);
      assert k in g.members && g2.members[k] == g.members[k];
      assert Members(init, key, k) + [] == Members(init, key, k);
    }
  }

  /** The grouping loop over all files. */
  function GroupBy(files: seq<string>, key: string -> string): (g: Groups)
    ensures GroupedAs(g, files, key)
    decreases |files|
  {
    if files == [] then Groups([], map[])
    else
      var init := files[..|files| - 1];
      var f := files[|files| - 1];
      var g := GroupBy(init, key);
      AddPreserves(g, init, f, key);
      ButLast(files);
      Add(g, f, key)
  }

  lemma ButLast<T>(xs: seq<T>)
    requires xs != []
    ensures xs[..|xs| - 1] + [xs[|xs| - 1]] == xs
  {
  }

  /** What one more file changes in the contract list: one more key, if
      new. */
  lemma GroupStep(init: seq<string>, f: string, key: string -> string)
    ensures KeysOf(init + [f], key) == KeysOf(init, key) + [key(f)]
    ensures Dedup(KeysOf(init + [f], key)) ==
      if key(f) in KeysOf(init, key) then Dedup(KeysOf(init, key)) else Dedup(KeysOf(init, key)) + [key(f)]
  {
    var files := init + [f];
    assert files[..|files| - 1] == init;
    assert KeysOf(files, key) == KeysOf(init, key) + [key(f)];
    assert KeysOf(files, key)[..|files| - 1] == KeysOf(init, key);
  }

  /** What one more file changes in the files of contract k: the file is
      appended exactly when it belongs to k. */
  lemma MembersStep(init: seq<string>, f: string, key: string -> string, k: string)
    ensures Members(init + [f], key, k) == Members(init, key, k) + (if key(f) == k then [f] else [])
  {
    var files := init + [f];
    assert files[..|files| - 1] == init;
  }

  /** A name no file maps to has no files. */
  lemma NoMembersOutside(files: seq<string>, key: string -> string, k: string)
    requires k !in KeysOf(files, key)
    ensures Members(files, key, k) == []
  {
  }

  /** Every file lies in the group of its own contract and in no other. */
  lemma GroupPartition(files: seq<string>, key: string -> string, f: string, k: string)
    requires f in files
    ensures key(f) in GroupBy(files, key).members
    ensures k in GroupBy(files, key).members ==> (f in GroupBy(files, key).members[k] <==> key(f) == k)
  {
    var i :| 0 <= i < |files| && files[i] == f;
    assert KeysOf(files, key)[i] == key(f);
  }

  /** The contracts of the files, each once. */
  lemma GroupKeys(files: seq<string>, key: string -> string)
    ensures forall k :: k in GroupBy(files, key).members <==> exists i :: 0 <= i < |files| && key(files[i]) == k
  {
    var g := GroupBy(files, key);
    forall k | k in g.members ensures exists i :: 0 <= i < |files| && key(files[i]) == k {
      var f := g.members[k][0];
      assert f in Members(files, key, k);
      var i :| 0 <= i < |files| && files[i] == f;
    }
    forall k | exists i :: 0 <= i < |files| && key(files[i]) == k ensures k in g.members {
      var i :| 0 <= i < |files| && key(files[i]) == k;
      assert KeysOf(files, key)[i] == k;
    }
  }

  /** `group_related_documents`. */
  function GroupFiles(files: seq<string>): (g: Groups)
    ensures forall k :: k in g.members <==> exists i :: 0 <= i < |files| && GroupKey(files[i]) == k
    ensures forall k :: k in g.members ==> g.members[k] == Members(files, GroupKey, k)
  {
    GroupKeys(files, GroupKey);
    GroupBy(files, GroupKey)
  }

  /** The Arabic, the English and the unmarked analysis of a contract end up
      in one group. */
  lemma VersionsGroupedTogether(files: seq<string>, x: string, ts1: string, ts2: string)
    requires Analysis.Stamp(ts1) && Analysis.Stamp(ts2) && StampFree(x) && !LanguageSuffixed(x)
    requires Analysis.OutputName(x + "_arabic", ts1) in files
    requires Analysis.OutputName(x + "_english", ts2) in files
    ensures x in GroupFiles(files).members
    ensures Analysis.OutputName(x + "_arabic", ts1) in GroupFiles(files).members[x]
    ensures Analysis.OutputName(x + "_english", ts2) in GroupFiles(files).members[x]
  {
    KeyOfOutput(x, "_arabic", ts1);
    KeyOfOutput(x, "_english", ts2);
    GroupPartition(files, GroupKey, Analysis.OutputName(x + "_arabic", ts1), x);
    GroupPartition(files, GroupKey, Analysis.OutputName(x + "_english", ts2), x);
  }

  /** The label of a file: Arabic exactly when its name holds `_arabic_`. */
  function LanguageLabel(name: string): (r: string)
    ensures r == "Arabic" || r == "English"
    ensures r == "Arabic" <==> Contains(name, "_arabic_")
  {
    if Contains(name, "_arabic_") then "Arabic" else "English"
  }

  /** The Arabic analysis the driver writes is labelled Arabic. */
  lemma ArabicOutputLabelled(x: string, ts: string)
    ensures LanguageLabel(Analysis.OutputName(x + "_arabic", ts)) == "Arabic"
  {
    var n := Analysis.OutputName(x + "_arabic", ts);
    assert n[|x|..|x| + 8] == "_arabic_";
    ContainsAt(n, "_arabic_", |x|);
  }

  // ---------------------------------------------------------------------------
  // extract_analysis_content
  // ---------------------------------------------------------------------------

  /** `extract_analysis_content`: the label, the file name, the seven
      sections and the whole text; on a read error the label "Unknown", the
      error and an empty text. */
  function AnalysisContent(name: string, read: Result<string>): (r: map<string, string>)
    ensures "language" in r && "file_name" in r && "full_content" in r
    ensures r["file_name"] == name
    ensures read.Ok? ==> r["language"] == LanguageLabel(name) && r["full_content"] == read.value
    ensures read.Ok? ==> forall n :: 0 <= n < SectionCount ==> Keys[n] in r && r[Keys[n]] == ExtractSection(read.value, n)
    ensures read.Err? ==> r["language"] == "Unknown" && r["full_content"] == "" && "error" in r
    ensures read.Err? ==> forall n :: 0 <= n < SectionCount ==> Keys[n] !in r
  {
    match read
    case Ok(content) =>
      ReadContentSections(name, content);
      ReadContent(name, content)
    case Err(e) => UnreadContent(name, e)
  }

  /** The dictionary of a file that could be read: the label, the name and
      the text, over the seven sections. */
  function ReadContent(name: string, content: string): (r: map<string, string>)
    ensures "language" in r && "file_name" in r && "full_content" in r
    ensures r["file_name"] == name && r["language"] == LanguageLabel(name) && r["full_content"] == content
  {
    SectionsOf(content) + Extras(name, LanguageLabel(name), content)
  }

  /** The bookkeeping entries of a read file. */
  function Extras(name: string, language: string, content: string): (r: map<string, string>)
    ensures r.Keys == {"language", "file_name", "full_content"}
    ensures r["file_name"] == name && r["language"] == language && r["full_content"] == content
  {
    map["language" := language, "file_name" := name, "full_content" := content]
  }

  /** A read file's dictionary holds each section as extracted. */
  lemma ReadContentSection(name: string, content: string, n: nat)
    requires n < SectionCount
    ensures Keys[n] in ReadContent(name, content)
    ensures ReadContent(name, content)[Keys[n]] == ExtractSection(content, n)
  {
    KeyNotExtra(n);
    assert Keys[n] !in Extras(name, LanguageLabel(name), content);
    assert Keys[n] in SectionsOf(content);
  }

  lemma ReadContentSections(name: string, content: string)
    ensures forall n :: 0 <= n < SectionCount ==>
      Keys[n] in ReadContent(name, content) && ReadContent(name, content)[Keys[n]] == ExtractSection(content, n)
  {
    forall n | 0 <= n < SectionCount
      ensures Keys[n] in ReadContent(name, content) && ReadContent(name, content)[Keys[n]] == ExtractSection(content, n)
    {
      ReadContentSection(name, content, n);
    }
  }

  function UnreadContent(name: string, e: string): (r: map<string, string>)
    ensures "language" in r && "file_name" in r && "full_content" in r && "error" in r
    ensures r["file_name"] == name && r["language"] == "Unknown" && r["full_content"] == ""
    ensures forall n :: 0 <= n < SectionCount ==> Keys[n] !in r
  {
    KeysNotExtra();
    map["language" := "Unknown", "file_name" := name, "error" := e, "full_content" := ""]
  }

  /** No section key is one of the bookkeeping keys. */
  lemma KeyNotExtra(n: nat)
    requires n < SectionCount
    ensures Keys[n] !in {"language", "file_name", "error", "full_content"}
  {
    assert Keys[n][0] == "bdfolrr"[n];
  }

  lemma KeysNotExtra()
    ensures forall n :: 0 <= n < SectionCount ==> Keys[n] !in {"language", "file_name", "error", "full_content"}
  {
    forall n | 0 <= n < SectionCount
      ensures Keys[n] !in {"language", "file_name", "error", "full_content"}
    {
      KeyNotExtra(n);
    }
  }

  /** `d.get(k, default)`. */
  function Lookup(d: map<string, string>, k: string, default: string): (r: string)
    ensures k in d ==> r == d[k]
    ensures k !in d ==> r == default
  {
    if k in d then d[k] else default
  }

  // ---------------------------------------------------------------------------
  // create_summary_prompt
  // ---------------------------------------------------------------------------

  /** The placeholder the template carries. */
  const Placeholder: string := "{CONTRACT_DATA}"

  /** The opening of the built-in template used when the template file
      cannot be read. */
  const FallbackIntro: string := "Create a comprehensive executive " + "summary of the following " + "contract analysis:\n\n"

  function FallbackTemplate(): string {
    FallbackIntro + Placeholder
  }

  function Line(title: string, value: string): string {
    "- " + title + ": " + value + "\n"
  }

  /** One version's block: its label and six of its sections, "N/A" for a
      section it lacks. */
  function VersionBlock(v: map<string, string>): (r: string)
    requires "language" in v
    ensures Contains(r, Line("Basic Info", Lookup(v, "basic_info", "N/A")))
  {
    var head := "\n**" + v["language"] + " Version Analysis:**\n";
    var first := Line("Basic Info", Lookup(v, "basic_info", "N/A"));
    var rest :=
      Line("Key Dates", Lookup(v, "dates", "N/A"))
      + Line("Financial", Lookup(v, "financial", "N/A"))
      + Line("Obligations", Lookup(v, "obligations", "N/A"))
      + Line("Legal Framework", Lookup(v, "legal", "N/A"))
      + Line("Risk Analysis", Lookup(v, "risks", "N/A"));
    assert (head + first + rest)[|head|..|head| + |first|] == first;
    ContainsAt(head + first + rest, first, |head|);
    head + first + rest
  }

  /** Every version carries its label. */
  predicate Labelled(vs: seq<map<string, string>>) {
    forall i :: 0 <= i < |vs| ==> "language" in vs[i]
  }

  /** The blocks of a contract's versions, in order. */
  function VersionBlocks(vs: seq<map<string, string>>): (r: seq<string>)
    requires Labelled(vs)
    ensures |r| == |vs|
    ensures forall i :: 0 <= i < |vs| ==> r[i] == VersionBlock(vs[i])
  {
    seq(|vs|, i requires 0 <= i < |vs| => VersionBlock(vs[i]))
  }

  /** A contract's block: its heading followed by its versions' blocks. */
  function ContractBlock(name: string, vs: seq<map<string, string>>): string
    requires Labelled(vs)
  {
    "\n### CONTRACT: " + name + "\n" + Concat(VersionBlocks(vs))
  }

  predicate AllLabelled(cs: seq<(string, seq<map<string, string>>)>) {
    forall i :: 0 <= i < |cs| ==> Labelled(cs[i].1)
  }

  /** The contracts' blocks, in order. */
  function ContractBlocks(cs: seq<(string, seq<map<string, string>>)>): (r: seq<string>)
    requires AllLabelled(cs)
    ensures |r| == |cs|
    ensures forall i :: 0 <= i < |cs| ==> r[i] == ContractBlock(cs[i].0, cs[i].1)
  {
    seq(|cs|, i requires 0 <= i < |cs| && Labelled(cs[i].1) => ContractBlock(cs[i].0, cs[i].1))
  }

  /** The contract data: the contracts' blocks accumulated in order. */
  function DataText(cs: seq<(string, seq<map<string, string>>)>): string
    requires AllLabelled(cs)
  {
    Concat(ContractBlocks(cs))
  }

  /** `create_summary_prompt`: every placeholder in the template replaced by
      the contract data. */
  function SummaryPrompt(template: string, cs: seq<(string, seq<map<string, string>>)>): (r: string)
    requires AllLabelled(cs)
    ensures Contains(template, Placeholder) ==> Contains(r, DataText(cs))
    ensures !Contains(template, Placeholder) ==> r == template
  {
    ReplaceOutcome(template, Placeholder, DataText(cs));
    ReplaceAll(template, Placeholder, DataText(cs))
  }

  /** The data of several contracts is the data of each, in order. */
  lemma DataTextAppend(a: seq<(string, seq<map<string, string>>)>, b: seq<(string, seq<map<string, string>>)>)
    requires AllLabelled(a) && AllLabelled(b)
    ensures AllLabelled(a + b) && DataText(a + b) == DataText(a) + DataText(b)
  {
    assert forall i :: 0 <= i < |a + b| ==> (a + b)[i] == if i < |a| then a[i] else b[i - |a|];
    assert ContractBlocks(a + b) == ContractBlocks(a) + ContractBlocks(b);
    ConcatAppend(ContractBlocks(a), ContractBlocks(b));
  }

  /** Each contract's block is part of the data. */
  lemma BlockInData(cs: seq<(string, seq<map<string, string>>)>, i: nat)
    requires AllLabelled(cs) && i < |cs|
    ensures Contains(DataText(cs), ContractBlock(cs[i].0, cs[i].1))
  {
    ConcatContainsPart(ContractBlocks(cs), i);
  }

  /** With the built-in template the prompt is its opening followed by the
      data. */
  lemma FallbackPrompt(cs: seq<(string, seq<map<string, string>>)>)
    requires AllLabelled(cs)
    ensures SummaryPrompt(FallbackTemplate(), cs) == FallbackIntro + DataText(cs)
  {
    assert '{' !in "Create a comprehensive executive ";
    assert '{' !in "summary of the following ";
    assert '{' !in "contract analysis:\n\n";
    var p := FallbackIntro + Placeholder + "";
    assert p == FallbackTemplate();
    ReplaceLeading(FallbackIntro, Placeholder, DataText(cs), "");
  }

  /** An unreadable version contributes "N/A" for its sections. */
  lemma UnreadableVersionNA(name: string, e: string)
    ensures Contains(VersionBlock(AnalysisContent(name, Err(e))), Line("Basic Info", "N/A"))
  {
  }

  // ---------------------------------------------------------------------------
  // generate_summary_for_contract_group and process_all_contracts
  // ---------------------------------------------------------------------------

  /** The versions of a group, each read and extracted. */
  function Versions(files: seq<string>, read: string -> Result<string>): (r: seq<map<string, string>>)
    ensures |r| == |files| && Labelled(r)
    ensures forall i :: 0 <= i < |files| ==> r[i] == AnalysisContent(files[i], read(files[i]))
  {
    seq(|files|, i requires 0 <= i < |files| => AnalysisContent(files[i], read(files[i])))
  }

  /** `generate_summary_for_contract_group`: in a dry run the prompt itself;
      otherwise the model's summary of it, or the error line. */
  function GroupSummary(
    name: string, files: seq<string>, read: string -> Result<string>,
    template: string, dryRun: bool, model: string -> Result<string>): string
  {
    var p := SummaryPrompt(template, [(name, Versions(files, read))]);
    if dryRun then p
    else match model(p)
      case Ok(s) => s
      case Err(e) => "ERROR: Could not generate summary - " + e
  }

  /** A prompt built from a template with the placeholder names every
      contract in a heading of its own. */
  lemma PromptNamesContract(template: string, cs: seq<(string, seq<map<string, string>>)>, i: nat)
    requires AllLabelled(cs) && i < |cs|
    requires Contains(template, Placeholder)
    ensures Contains(SummaryPrompt(template, cs), "\n### CONTRACT: " + cs[i].0 + "\n")
  {
    var head := "\n### CONTRACT: " + cs[i].0 + "\n";
    var block := ContractBlock(cs[i].0, cs[i].1);
    BlockInData(cs, i);
    assert block[..|head|] == head;
    ContainsAt(block, head, 0);
    ContainsTrans(DataText(cs), block, head);
    ContainsTrans(SummaryPrompt(template, cs), DataText(cs), head);
  }

  /** A dry-run prompt built from a template with the placeholder names the
      contract. */
  lemma DryRunNamesContract(
    name: string, files: seq<string>, read: string -> Result<string>,
    template: string, model: string -> Result<string>)
    requires Contains(template, Placeholder)
    ensures Contains(GroupSummary(name, files, read, template, true, model), "\n### CONTRACT: " + name + "\n")
  {
    var vs := Versions(files, read);
    var cs := [(name, vs)];
    assert AllLabelled(cs) by {
      assert cs[0].1 == vs;
    }
    PromptNamesContract(template, cs, 0);
  }

  /** `<contract>_executive_summary_<timestamp>.txt`. */
  function SummaryFileName(name: string, ts: string): string {
    name + "_executive_summary_" + ts + ".txt"
  }

  /** `process_all_contracts`: one entry per contract, computed from the
      contract's files. */
  function ProcessAll(
    files: seq<string>, read: string -> Result<string>, template: string,
    dryRun: bool, model: string -> Result<string>, ts: string): (r: map<string, string>)
    ensures forall k :: k in r <==> exists i :: 0 <= i < |files| && GroupKey(files[i]) == k
    ensures forall k :: k in r ==> r[k] == ContractEntry(k, Members(files, GroupKey, k), read, template, dryRun, model, ts)
  {
    var g := GroupFiles(files);
    map k | k in g.members :: ContractEntry(k, g.members[k], read, template, dryRun, model, ts)
  }

  /** The entry of one contract: in a dry run the prompt's length, otherwise
      the name of the saved summary. */
  function ContractEntry(
    k: string, files: seq<string>, read: string -> Result<string>, template: string,
    dryRun: bool, model: string -> Result<string>, ts: string): string
  {
    if dryRun then "PROMPT_READY (" + NatToString(|GroupSummary(k, files, read, template, true, model)|) + " chars)"
    else SummaryFileName(k, ts)
  }
}
