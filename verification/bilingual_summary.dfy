/** The bilingual summary generator (src/bilingual_contract_summary_generator.py):
    the language decision per analysis file, the grouping into Arabic and
    English lists per contract, the choice between extracting and
    translating an analysis, the bilingual prompt and the per-contract
    outcome. Files are names; reading one is the oracle `read`, the
    translator and the language model are oracles too. */
module BilingualSummary {
  import opened Wrappers
  import opened Text
  import opened PyDict
  import opened AnalysisSections
  import TranslationHandler
  import Analysis
  import ContractSummary

  // ---------------------------------------------------------------------------
  // detect_document_language
  // ---------------------------------------------------------------------------

  /** `detect_document_language`: Arabic when the classifier says so or the
      name holds `_arabic_`; a file that cannot be read is judged by its
      name alone. */
  function DocumentLanguage(name: string, read: Result<string>): (r: string)
    ensures r == "ar" || r == "en"
    ensures r == "ar" <==>
      Contains(name, "_arabic_") || (read.Ok? && TranslationHandler.DetectLanguage(read.value) == "ar")
  {
    match read
    case Ok(content) =>
      if TranslationHandler.DetectLanguage(content) == "ar" || Contains(name, "_arabic_") then "ar" else "en"
    case Err(_) =>
      if Contains(name, "_arabic_") then "ar" else "en"
  }

  /** Mixed, unknown and English text in a file not named Arabic counts as
      English. */
  lemma NotArabicIsEnglish(name: string, content: string)
    requires !Contains(name, "_arabic_")
    requires TranslationHandler.DetectLanguage(content) != "ar"
    ensures DocumentLanguage(name, Ok(content)) == "en"
  {
  }

  /** Text whose letters are all Arabic is Arabic, whatever the name. */
  lemma ArabicTextIsArabic(name: string, content: string)
    requires exists i :: 0 <= i < |content| && TranslationHandler.IsArabic(content[i])
    requires forall i :: 0 <= i < |content| && TranslationHandler.IsLetter(content[i]) ==> TranslationHandler.IsArabic(content[i])
    ensures DocumentLanguage(name, Ok(content)) == "ar"
  {
    TranslationHandler.AllArabicIsArabic(content);
  }

  /** The Arabic analysis the pipeline writes is Arabic whatever its text. */
  lemma ArabicOutputIsArabic(x: string, ts: string, read: Result<string>)
    ensures DocumentLanguage(Analysis.OutputName(x + "_arabic", ts), read) == "ar"
  {
    ContractSummary.ArabicOutputLabelled(x, ts);
  }

  // ---------------------------------------------------------------------------
  // group_related_documents
  // ---------------------------------------------------------------------------

  /** The Arabic and the English files of one contract. */
  datatype Bucket = Bucket(ar: seq<string>, en: seq<string>)

  /** Reference: the files of contract k on one side (Arabic when `arabic`),
      in their order. */
  function Side(files: seq<string>, key: string -> string, isAr: string -> bool, k: string, arabic: bool): (r: seq<string>)
    ensures |r| <= |files|
    ensures forall f :: f in r <==> f in files && key(f) == k && isAr(f) == arabic
    decreases |files|
  {
    if files == [] then []
    else
      var last := files[|files| - 1];
      assert files == files[..|files| - 1] + [last];
      Side(files[..|files| - 1], key, isAr, k, arabic) + (if key(last) == k && isAr(last) == arabic then [last] else [])
  }

  /** `b` holds exactly the bucketing of `files`. */
  ghost predicate BucketedAs(b: map<string, Bucket>, files: seq<string>, key: string -> string, isAr: string -> bool) {
    && (forall k :: k in b <==> k in ContractSummary.KeysOf(files, key))
    && (forall k :: k in b ==> b[k].ar == Side(files, key, isAr, k, true))
    && (forall k :: k in b ==> b[k].en == Side(files, key, isAr, k, false))
  }

  /** One step of the loop: the file appended to its side of its contract,
      whose bucket is created empty on first sight. */
  function Place(b: map<string, Bucket>, f: string, key: string -> string, isAr: string -> bool): map<string, Bucket> {
    var k := key(f);
    var cur := if k in b then b[k] else Bucket([], []);
    b[k := if isAr(f) then cur.(ar := cur.ar + [f]) else cur.(en := cur.en + [f])]
  }

  /** The grouping loop over all files. */
  function Buckets(files: seq<string>, key: string -> string, isAr: string -> bool): (b: map<string, Bucket>)
    ensures BucketedAs(b, files, key, isAr)
    decreases |files|
  {
    if files == [] then map[]
    else
      var init := files[..|files| - 1];
      var f := files[|files| - 1];
      PlaceKeys(Buckets(init, key, isAr), init, f, key, isAr);
      PlaceOwn(Buckets(init, key, isAr), init, f, key, isAr);
      PlaceOthers(Buckets(init, key, isAr), init, f, key, isAr);
      assert init + [f] == files;
      Place(Buckets(init, key, isAr), f, key, isAr)
  }

  /** What one more file changes in the reference. */
  lemma SideStep(init: seq<string>, f: string, key: string -> string, isAr: string -> bool)
    ensures ContractSummary.KeysOf(init + [f], key) == ContractSummary.KeysOf(init, key) + [key(f)]
    ensures forall k, arabic ::
      Side(init + [f], key, isAr, k, arabic) == Side(init, key, isAr, k, arabic) + (if key(f) == k && isAr(f) == arabic then [f] else [])
  {
    var files := init + [f];
    assert files[..|files| - 1] == init;
  }

  lemma PlaceKeys(b: map<string, Bucket>, init: seq<string>, f: string, key: string -> string, isAr: string -> bool)
    requires BucketedAs(b, init, key, isAr)
    ensures forall k :: k in Place(b, f, key, isAr) <==> k in ContractSummary.KeysOf(init + [f], key)
  {
    SideStep(init, f, key, isAr);
  }

  lemma PlaceOwn(b: map<string, Bucket>, init: seq<string>, f: string, key: string -> string, isAr: string -> bool)
    requires BucketedAs(b, init, key, isAr)
    ensures key(f) in Place(b, f, key, isAr)
    ensures Place(b, f, key, isAr)[key(f)].ar == Side(init + [f], key, isAr, key(f), true)
    ensures Place(b, f, key, isAr)[key(f)].en == Side(init + [f], key, isAr, key(f), false)
  {
    SideStep(init, f, key, isAr);
    if key(f) !in b {
      NoSideOutside(init, key, isAr, key(f), true);
      NoSideOutside(init, key, isAr, key(f), false);
    }
  }

  lemma PlaceOthers(b: map<string, Bucket>, init: seq<string>, f: string, key: string -> string, isAr: string -> bool)
    requires BucketedAs(b, init, key, isAr)
    ensures forall k :: k in Place(b, f, key, isAr) && k != key(f) ==>
      Place(b, f, key, isAr)[k].ar == Side(init + [f], key, isAr, k, true)
      && Place(b, f, key, isAr)[k].en == Side(init + [f], key, isAr, k, false)
  {
    SideStep(init, f, key, isAr);
  }

  /** A contract no file maps to has no files on either side. */
  lemma NoSideOutside(files: seq<string>, key: string -> string, isAr: string -> bool, k: string, arabic: bool)
    requires k !in ContractSummary.KeysOf(files, key)
    ensures Side(files, key, isAr, k, arabic) == []
  {
  }

  /** Every file lies in exactly one list of exactly one bucket: the side of
      its language in the bucket of its contract. */
  lemma OneListEach(files: seq<string>, key: string -> string, isAr: string -> bool, f: string, k: string)
    requires f in files
    ensures key(f) in Buckets(files, key, isAr)
    ensures f in Buckets(files, key, isAr)[key(f)].ar <==> isAr(f)
    ensures f in Buckets(files, key, isAr)[key(f)].en <==> !isAr(f)
    ensures k in Buckets(files, key, isAr) && k != key(f) ==>
      f !in Buckets(files, key, isAr)[k].ar && f !in Buckets(files, key, isAr)[k].en
  {
    var i :| 0 <= i < |files| && files[i] == f;
    assert ContractSummary.KeysOf(files, key)[i] == key(f);
  }

  /** Every bucket has a file on at least one side. */
  lemma BucketNotEmpty(files: seq<string>, key: string -> string, isAr: string -> bool, k: string)
    requires k in Buckets(files, key, isAr)
    ensures Buckets(files, key, isAr)[k].ar != [] || Buckets(files, key, isAr)[k].en != []
  {
    var i :| 0 <= i < |files| && ContractSummary.KeysOf(files, key)[i] == k;
    var f := files[i];
    assert f in Side(files, key, isAr, k, isAr(f));
  }

  /** Whether a file is Arabic, reading it through `read`. */
  function IsArabicFile(read: string -> Result<string>): string -> bool {
    f => DocumentLanguage(f, read(f)) == "ar"
  }

  /** `group_related_documents`: the contracts of the files, each with its
      Arabic and English files in order. */
  function GroupDocuments(files: seq<string>, read: string -> Result<string>): (b: map<string, Bucket>)
    ensures forall k :: k in b <==> exists i :: 0 <= i < |files| && ContractSummary.GroupKey(files[i]) == k
    ensures forall k :: k in b ==> b[k].ar == Side(files, ContractSummary.GroupKey, IsArabicFile(read), k, true)
    ensures forall k :: k in b ==> b[k].en == Side(files, ContractSummary.GroupKey, IsArabicFile(read), k, false)
  {
    BucketKeys(files, ContractSummary.GroupKey, IsArabicFile(read));
    Buckets(files, ContractSummary.GroupKey, IsArabicFile(read))
  }

  lemma BucketKeys(files: seq<string>, key: string -> string, isAr: string -> bool)
    ensures forall k :: k in Buckets(files, key, isAr) <==> exists i :: 0 <= i < |files| && key(files[i]) == k
  {
    var ks := ContractSummary.KeysOf(files, key);
    forall k | k in ks ensures exists i :: 0 <= i < |files| && key(files[i]) == k {
      var i :| 0 <= i < |ks| && ks[i] == k;
    }
    forall k | exists i :: 0 <= i < |files| && key(files[i]) == k ensures k in ks {
      var i :| 0 <= i < |files| && key(files[i]) == k;
      assert ks[i] == k;
    }
  }

  /** A contract's Arabic analysis lands in its Arabic list. */
  lemma ArabicOutputListed(files: seq<string>, read: string -> Result<string>, x: string, ts: string)
    requires Analysis.Stamp(ts) && ContractSummary.StampFree(x) && !ContractSummary.LanguageSuffixed(x)
    requires Analysis.OutputName(x + "_arabic", ts) in files
    ensures x in GroupDocuments(files, read)
    ensures Analysis.OutputName(x + "_arabic", ts) in GroupDocuments(files, read)[x].ar
  {
    var f := Analysis.OutputName(x + "_arabic", ts);
    ContractSummary.KeyOfOutput(x, "_arabic", ts);
    ArabicOutputIsArabic(x, ts, read(f));
    OneListEach(files, ContractSummary.GroupKey, IsArabicFile(read), f, x);
  }

  // ---------------------------------------------------------------------------
  // _extract_analysis_sections and create_bilingual_analysis
  // ---------------------------------------------------------------------------

  /** `_extract_analysis_sections`: the language, the seven sections and the
      whole text. */
  function ExtractAnalysisSections(content: string, language: string): (r: map<string, string>)
    ensures "language" in r && "full_content" in r
    ensures r["language"] == language && r["full_content"] == content
  {
    SectionsOf(content) + LanguageAndText(language, content)
  }

  function LanguageAndText(language: string, content: string): (r: map<string, string>)
    ensures r.Keys == {"language", "full_content"}
    ensures r["language"] == language && r["full_content"] == content
  {
    map["language" := language, "full_content" := content]
  }

  /** Exactly the language, the section keys and the text are present. */
  lemma ExtractedKeys(content: string, language: string, k: string)
    ensures k in ExtractAnalysisSections(content, language) <==> k in Keys || k == "language" || k == "full_content"
  {
    var s, t := SectionsOf(content), LanguageAndText(language, content);
    assert k in s + t <==> k in s || k in t;
    assert k in s <==> k in Keys;
  }

  /** Each section is present as extracted. */
  lemma ExtractedSection(content: string, language: string, n: nat)
    requires n < SectionCount
    ensures Keys[n] in ExtractAnalysisSections(content, language)
    ensures ExtractAnalysisSections(content, language)[Keys[n]] == ExtractSection(content, n)
  {
    ContractSummary.KeyNotExtra(n);
    assert Keys[n] !in LanguageAndText(language, content);
    assert Keys[n] in SectionsOf(content);
  }

  /** `[Translation error: <e>]`. */
  function TranslationError(e: string): string {
    "[Translation error: " + e + "]"
  }

  /** The dictionary of a failed translation: every section the error, the
      text alongside, no language. */
  function ErrorAnalysis(e: string, content: string): (r: map<string, string>)
    ensures forall k :: k in r <==> k in Keys || k == "full_content"
    ensures forall n :: 0 <= n < SectionCount ==> r[Keys[n]] == TranslationError(e)
    ensures r["full_content"] == content
  {
    ContractSummary.KeysNotExtra();
    (map k | k in Keys :: TranslationError(e)) + map["full_content" := content]
  }

  /** The language an analysis is produced in: the requested one, or else
      the opposite of the source's. */
  function Target(source: string, target: Option<string>): (r: string)
    ensures target.Some? ==> r == target.value
    ensures target.None? && source == "ar" ==> r == "en"
    ensures target.None? && source != "ar" ==> r == "ar"
  {
    match target
    case Some(t) => t
    case None => if source == "ar" then "en" else "ar"
  }

  /** Without a requested language the analysis is always translated. */
  lemma DefaultTargetDiffers(name: string, content: string)
    ensures Target(DocumentLanguage(name, Ok(content)), None) != DocumentLanguage(name, Ok(content))
  {
  }

  /** `create_bilingual_analysis` for a file that was read: sections as they
      are when the file is already in the target language, else the
      translator's sections, or the error dictionary when it fails. */
  function AnalysisOfText(
    name: string, content: string, target: Option<string>,
    translate: (string, string) -> Result<map<string, string>>): (r: map<string, string>)
    ensures var source := DocumentLanguage(name, Ok(content));
      var t := Target(source, target);
      && (source == t ==> r == ExtractAnalysisSections(content, t))
      && (source != t && translate(content, t).Ok? ==> r == translate(content, t).value)
      && (source != t && translate(content, t).Err? ==> r == ErrorAnalysis(translate(content, t).error, content))
  {
    var source := DocumentLanguage(name, Ok(content));
    var t := Target(source, target);
    if source == t then ExtractAnalysisSections(content, t)
    else match translate(content, t)
      case Ok(m) => m
      case Err(e) => ErrorAnalysis(e, content)
  }

  /** `create_bilingual_analysis` as written: a read failure reaches the
      error handler, which builds its dictionary from the text that was never
      read, so the handler itself raises. */
  function CreateBilingualAnalysisAsWritten(
    name: string, read: Result<string>, target: Option<string>,
    translate: (string, string) -> Result<map<string, string>>): (r: Result<map<string, string>>)
    ensures read.Ok? ==> r == Ok(AnalysisOfText(name, read.value, target, translate))
    ensures read.Err? ==> r.Err?
  {
    match read
    case Ok(content) => Ok(AnalysisOfText(name, content, target, translate))
    case Err(_) => Err("UnboundLocalError: local variable 'content' referenced before assignment")
  }

  /** The discrepancy: an unreadable file makes the function raise instead of
      returning the error dictionary its handler was written to return. */
  lemma UnreadableFileRaises(name: string, e: string, target: Option<string>,
    translate: (string, string) -> Result<map<string, string>>)
    ensures CreateBilingualAnalysisAsWritten(name, Err(e), target, translate).Err?
  {
  }

  /** `create_bilingual_analysis` as intended: an unreadable file gives the
      error dictionary, with an empty text. */
  function CreateBilingualAnalysis(
    name: string, read: Result<string>, target: Option<string>,
    translate: (string, string) -> Result<map<string, string>>): (r: map<string, string>)
    ensures read.Ok? ==> r == AnalysisOfText(name, read.value, target, translate)
    ensures read.Err? ==> r == ErrorAnalysis(read.error, "")
  {
    match read
    case Ok(content) => AnalysisOfText(name, content, target, translate)
    case Err(e) => ErrorAnalysis(e, "")
  }

  /** The corrected function agrees with the original wherever the original
      returns, and returns a dictionary holding every section where it
      raises. */
  lemma CreateBilingualAnalysisCorrected(name: string, read: Result<string>, target: Option<string>,
    translate: (string, string) -> Result<map<string, string>>)
    ensures CreateBilingualAnalysisAsWritten(name, read, target, translate).Ok? ==>
      CreateBilingualAnalysisAsWritten(name, read, target, translate).value == CreateBilingualAnalysis(name, read, target, translate)
    ensures read.Err? ==> forall n :: 0 <= n < SectionCount ==>
      Keys[n] in CreateBilingualAnalysis(name, read, target, translate)
      && CreateBilingualAnalysis(name, read, target, translate)[Keys[n]] == TranslationError(read.error)
  {
  }

  // ---------------------------------------------------------------------------
  // create_bilingual_summary_prompt
  // ---------------------------------------------------------------------------

  const ArabicHeading: string := "\n**النسخة العربية (Arabic Version Analysis):**\n"
  const ArabicLabels: seq<string> := ["المعلومات الأساسية", "التواريخ المهمة", "الشؤون المالية", "الالتزامات الرئيسية", "الإطار القانوني", "تحليل المخاطر", "التوصيات"]
  const ArabicMissing: string := "غير متوفر"

  const EnglishHeading: string := "\n**English Version Analysis:**\n"
  const EnglishLabels: seq<string> := ["Basic Info", "Key Dates", "Financial", "Obligations", "Legal Framework", "Risk Analysis", "Recommendations"]
  const EnglishMissing: string := "N/A"

  /** The seven lines of an analysis, one per section in report order, with
      the default for a section it lacks. */
  function SectionLines(labels: seq<string>, missing: string, a: map<string, string>): (r: seq<string>)
    requires |labels| == SectionCount
    ensures |r| == SectionCount
    ensures forall n :: 0 <= n < SectionCount ==> r[n] == ContractSummary.Line(labels[n], ContractSummary.Lookup(a, Keys[n], missing))
  {
    seq(SectionCount, n requires 0 <= n < SectionCount => ContractSummary.Line(labels[n], ContractSummary.Lookup(a, Keys[n], missing)))
  }

  /** One language's block: its heading and its seven lines. */
  function Block(heading: string, labels: seq<string>, missing: string, a: map<string, string>): string
    requires |labels| == SectionCount
  {
    heading + Concat(SectionLines(labels, missing, a))
  }

  /** Every section line is in the block. */
  lemma BlockShowsSection(heading: string, labels: seq<string>, missing: string, a: map<string, string>, n: nat)
    requires |labels| == SectionCount && n < SectionCount
    ensures Contains(Block(heading, labels, missing, a), ContractSummary.Line(labels[n], ContractSummary.Lookup(a, Keys[n], missing)))
  {
    ConcatContainsPart(SectionLines(labels, missing, a), n);
    ContainsRight(heading, Concat(SectionLines(labels, missing, a)), SectionLines(labels, missing, a)[n]);
  }

  /** `analysis and analysis.get('basic_info')`. */
  predicate Shown(a: map<string, string>) {
    "basic_info" in a && a["basic_info"] != ""
  }

  /** The contract data: the heading, the Arabic block if shown, the English
      block if shown. */
  function BilingualData(name: string, ar: map<string, string>, en: map<string, string>): string {
    "\n### CONTRACT: " + name + "\n"
      + (if Shown(ar) then Block(ArabicHeading, ArabicLabels, ArabicMissing, ar) else "")
      + (if Shown(en) then Block(EnglishHeading, EnglishLabels, EnglishMissing, en) else "")
  }

  /** `create_bilingual_summary_prompt`: every placeholder of the template
      replaced by the contract data. */
  function BilingualPrompt(template: string, name: string, ar: map<string, string>, en: map<string, string>): (r: string)
    ensures Contains(template, ContractSummary.Placeholder) ==> Contains(r, BilingualData(name, ar, en))
    ensures !Contains(template, ContractSummary.Placeholder) ==> r == template
  {
    ReplaceOutcome(template, ContractSummary.Placeholder, BilingualData(name, ar, en));
    ReplaceAll(template, ContractSummary.Placeholder, BilingualData(name, ar, en))
  }

  /** An analysis without a basic-info section contributes nothing, as if it
      were empty. */
  lemma UnshownContributesNothing(name: string, ar: map<string, string>, en: map<string, string>)
    ensures !Shown(ar) ==> BilingualData(name, ar, en) == BilingualData(name, map[], en)
    ensures !Shown(en) ==> BilingualData(name, ar, en) == BilingualData(name, ar, map[])
  {
  }

  /** A shown analysis has each of its sections in the data, the Arabic
      under Arabic labels and the English under English ones. */
  lemma ShownSectionsInData(name: string, ar: map<string, string>, en: map<string, string>, n: nat)
    requires n < SectionCount
    ensures Shown(ar) ==> Contains(BilingualData(name, ar, en),
      ContractSummary.Line(ArabicLabels[n], ContractSummary.Lookup(ar, Keys[n], ArabicMissing)))
    ensures Shown(en) ==> Contains(BilingualData(name, ar, en),
      ContractSummary.Line(EnglishLabels[n], ContractSummary.Lookup(en, Keys[n], EnglishMissing)))
  {
    var head := "\n### CONTRACT: " + name + "\n";
    var a := if Shown(ar) then Block(ArabicHeading, ArabicLabels, ArabicMissing, ar) else "";
    var e := if Shown(en) then Block(EnglishHeading, EnglishLabels, EnglishMissing, en) else "";
    if Shown(ar) {
      BlockShowsSection(ArabicHeading, ArabicLabels, ArabicMissing, ar, n);
      ContainsRight(head, a, ContractSummary.Line(ArabicLabels[n], ContractSummary.Lookup(ar, Keys[n], ArabicMissing)));
      ContainsLeft(head + a, e, ContractSummary.Line(ArabicLabels[n], ContractSummary.Lookup(ar, Keys[n], ArabicMissing)));
    }
    if Shown(en) {
      BlockShowsSection(EnglishHeading, EnglishLabels, EnglishMissing, en, n);
      ContainsRight(head + a, e, ContractSummary.Line(EnglishLabels[n], ContractSummary.Lookup(en, Keys[n], EnglishMissing)));
    }
  }

  /** A failed translation is still shown, its error in every line. */
  lemma TranslationErrorShown(name: string, e: string, content: string, en: map<string, string>, n: nat)
    requires n < SectionCount
    ensures Contains(BilingualData(name, ErrorAnalysis(e, content), en),
      ContractSummary.Line(ArabicLabels[n], TranslationError(e)))
  {
    assert Keys[0] == "basic_info";
    ShownSectionsInData(name, ErrorAnalysis(e, content), en, n);
  }

  /** The built-in template, used when the template file cannot be read. */
  const BilingualIntro: string := "Create a comprehensive " + "bilingual executive summary:\n\n"

  function BilingualFallbackTemplate(): string {
    BilingualIntro + ContractSummary.Placeholder
  }

  /** With the built-in template the prompt is its opening followed by the
      data. */
  lemma BilingualFallbackPrompt(name: string, ar: map<string, string>, en: map<string, string>)
    ensures BilingualPrompt(BilingualFallbackTemplate(), name, ar, en) == BilingualIntro + BilingualData(name, ar, en)
  {
    assert '{' !in "Create a comprehensive ";
    assert '{' !in "bilingual executive summary:\n\n";
    var p := BilingualIntro + ContractSummary.Placeholder + "";
    assert p == BilingualFallbackTemplate();
    ReplaceLeading(BilingualIntro, ContractSummary.Placeholder, BilingualData(name, ar, en), "");
  }

  // ---------------------------------------------------------------------------
  // process_bilingual_contracts
  // ---------------------------------------------------------------------------

  /** One side's analysis of a contract: its first file of that language,
      read without protection (a failure raises), or else the first file of
      the other language translated as `create_bilingual_analysis` is
      written (an unreadable file raises there too), or else nothing. */
  function SideAnalysis(
    own: seq<string>, other: seq<string>, language: string, read: string -> Result<string>,
    translate: (string, string) -> Result<map<string, string>>): (r: Result<map<string, string>>)
    ensures own != [] && read(own[0]).Ok? ==> r == Ok(ExtractAnalysisSections(read(own[0]).value, language))
    ensures own != [] && read(own[0]).Err? ==> r == Err(read(own[0]).error)
    ensures own == [] && other != [] && read(other[0]).Ok? ==>
      r == Ok(AnalysisOfText(other[0], read(other[0]).value, Some(language), translate))
    ensures r.Err? <==> (own != [] && read(own[0]).Err?) || (own == [] && other != [] && read(other[0]).Err?)
    ensures own == [] && other == [] ==> r == Ok(map[])
  {
    if own != [] then
      match read(own[0])
      case Ok(content) => Ok(ExtractAnalysisSections(content, language))
      case Err(e) => Err(e)
    else if other != [] then CreateBilingualAnalysisAsWritten(other[0], read(other[0]), Some(language), translate)
    else Ok(map[])
  }

  /** `<contract>_bilingual_executive_summary_<timestamp>.txt`. */
  function BilingualSummaryFileName(name: string, ts: string): string {
    name + "_bilingual_executive_summary_" + ts + ".txt"
  }

  /** The entry of a contract once its two analyses are built: with any
      analysis, the prompt's length in a dry run, else the saved summary's
      name or the model's error; with none, "NO_DATA". */
  function Entry(
    name: string, arabic: map<string, string>, english: map<string, string>, template: string,
    dryRun: bool, model: string -> Result<string>, ts: string): (r: string)
    ensures r == "NO_DATA" <==> arabic == map[] && english == map[]
    ensures (arabic != map[] || english != map[]) && dryRun ==>
      r == "BILINGUAL_PROMPT_READY (" + NatToString(|BilingualPrompt(template, name, arabic, english)|) + " chars)"
    ensures (arabic != map[] || english != map[]) && !dryRun ==>
      var reply := model(BilingualPrompt(template, name, arabic, english));
      && (reply.Ok? ==> r == BilingualSummaryFileName(name, ts))
      && (reply.Err? ==> r == "ERROR: " + reply.error)
  {
    if arabic != map[] || english != map[] then
      var p := BilingualPrompt(template, name, arabic, english);
      if dryRun then
        var r := "BILINGUAL_PROMPT_READY (" + NatToString(|p|) + " chars)";
        assert r[0] != "NO_DATA"[0];
        r
      else match model(p)
        case Ok(_) =>
          var r := BilingualSummaryFileName(name, ts);
          assert |r| > |"NO_DATA"|;
          r
        case Err(e) =>
          var r := "ERROR: " + e;
          assert r[0] != "NO_DATA"[0];
          r
    else "NO_DATA"
  }

  /** The result entry of one contract, or the error of an unreadable file
      that ends the run. */
  function ContractOutcome(
    name: string, b: Bucket, read: string -> Result<string>,
    translate: (string, string) -> Result<map<string, string>>, template: string,
    dryRun: bool, model: string -> Result<string>, ts: string): (r: Result<string>)
    ensures var a, e := SideAnalysis(b.ar, b.en, "ar", read, translate), SideAnalysis(b.en, b.ar, "en", read, translate);
      && (r.Err? <==> a.Err? || e.Err?)
      && (r.Ok? ==> r.value == Entry(name, a.value, e.value, template, dryRun, model, ts))
  {
    match SideAnalysis(b.ar, b.en, "ar", read, translate)
    case Err(e) => Err(e)
    case Ok(arabic) =>
      match SideAnalysis(b.en, b.ar, "en", read, translate)
      case Err(e) => Err(e)
      case Ok(english) => Ok(Entry(name, arabic, english, template, dryRun, model, ts))
  }

  /** A bucket with a file never yields "NO_DATA": the side that has a file
      has its sections extracted. */
  lemma NoDataUnreachable(
    name: string, b: Bucket, read: string -> Result<string>,
    translate: (string, string) -> Result<map<string, string>>, template: string,
    dryRun: bool, model: string -> Result<string>, ts: string)
    requires b.ar != [] || b.en != []
    ensures ContractOutcome(name, b, read, translate, template, dryRun, model, ts) != Ok("NO_DATA")
  {
    var a := SideAnalysis(b.ar, b.en, "ar", read, translate);
    var e := SideAnalysis(b.en, b.ar, "en", read, translate);
    if a.Ok? && e.Ok? {
      if b.ar != [] {
        assert "language" in a.value;
      } else {
        assert "language" in e.value;
      }
    }
  }

  /** The outcomes of the contracts in order; the first error ends the run. */
  function Outcomes(ks: seq<string>, outcome: map<string, Result<string>>): (r: Result<map<string, string>>)
    requires forall k :: k in ks ==> k in outcome
    ensures r.Ok? <==> forall i :: 0 <= i < |ks| ==> outcome[ks[i]].Ok?
    ensures r.Err? ==> exists i :: 0 <= i < |ks| && outcome[ks[i]] == Err(r.error)
    ensures r.Ok? ==> forall k :: k in r.value <==> k in ks
    ensures r.Ok? ==> forall k :: k in r.value ==> r.value[k] == outcome[k].value
    decreases |ks|
  {
    if ks == [] then Ok(map[])
    else
      assert forall i :: 1 <= i < |ks| ==> ks[i] == ks[1..][i - 1];
      match outcome[ks[0]]
      case Err(e) => Err(e)
      case Ok(v) =>
        match Outcomes(ks[1..], outcome)
        case Err(e) => Err(e)
        case Ok(m) => Ok(m[ks[0] := v])
  }

  /** `process_bilingual_contracts`: the outcome of every contract, taken in
      order of first appearance; an unreadable file ends the run with its
      error. */
  function ProcessBilingual(
    files: seq<string>, read: string -> Result<string>,
    translate: (string, string) -> Result<map<string, string>>, template: string,
    dryRun: bool, model: string -> Result<string>, ts: string): (r: Result<map<string, string>>)
    ensures r.Ok? ==> forall k :: k in r.value <==> exists i :: 0 <= i < |files| && ContractSummary.GroupKey(files[i]) == k
    ensures r.Ok? ==> forall k :: k in r.value ==> r.value[k] != "NO_DATA"
  {
    var b := GroupDocuments(files, read);
    var ks := Dedup(ContractSummary.KeysOf(files, ContractSummary.GroupKey));
    BucketKeys(files, ContractSummary.GroupKey, IsArabicFile(read));
    NoDataNowhere(files, read, translate, template, dryRun, model, ts);
    Outcomes(ks, map k | k in b :: ContractOutcome(k, b[k], read, translate, template, dryRun, model, ts))
  }

  lemma NoDataNowhere(
    files: seq<string>, read: string -> Result<string>,
    translate: (string, string) -> Result<map<string, string>>, template: string,
    dryRun: bool, model: string -> Result<string>, ts: string)
    ensures var b := GroupDocuments(files, read);
      forall k :: k in b ==> ContractOutcome(k, b[k], read, translate, template, dryRun, model, ts) != Ok("NO_DATA")
  {
    var b := GroupDocuments(files, read);
    forall k | k in b
      ensures ContractOutcome(k, b[k], read, translate, template, dryRun, model, ts) != Ok("NO_DATA")
    {
      BucketNotEmpty(files, ContractSummary.GroupKey, IsArabicFile(read), k);
      NoDataUnreachable(k, b[k], read, translate, template, dryRun, model, ts);
    }
  }
}
