/**
 * The application's processing path: `full_pipeline`, which chains the
 * pre-processing steps, the classifier, the length gate and the history
 * store, and the two handlers that also reset the history navigation (the
 * "analyze" button and the confirmed "delete all").
 *
 * The user's text, the loaded scorer, `str.lower`, the word segmenter and the
 * database clock are inputs.
 */
module App {
  import opened Wrappers
  import opened PyStr
  import opened Constant
  import opened Preprocessing
  import opened SentimentClassification
  import opened Database
  import opened Pagination

  /** `result`: what is stored in the history. */
  datatype Record = Record(text: string, sentiment: Option<string>)

  /** `display_result`. The score shown is the top score times 100; Python
      then rounds it to two decimals. */
  datatype Display = Display(originalText: string, correctedText: string, tokenizedText: string,
                             sentimentLabel: Option<string>, sentimentScore: real)

  /** How a run of `full_pipeline` ends: classified (and saved when the insert
      succeeds), refused by the length gate, or in the `except` branch because
      the classifier raised. */
  datatype Outcome =
    | Classified(record: Record, display: Display)
    | InvalidLength
    | Crashed(cause: ClassifyError)

  /** The bounds of the length gate, `len(result["text"])` in [5, 50]. */
  const MinTextLength: nat := 5
  const MaxTextLength: nat := 50

  const InvalidLengthMessage: string := "Độ dài câu không hợp lệ, vui lòng thử lại (5-50 ký tự)"

  /** `str(e)` of the exception `classify_sentiment` raised. The message of
      `max()` on an empty list is the one of current CPython versions. */
  function CauseText(cause: ClassifyError): string {
    match cause
    case PipelineNotInitialized => "Pipeline has not been initialized."
    case EmptyScores => "max() iterable argument is empty"
  }

  /** `f"Pipeline error: {e}. Please try again."`. */
  function CrashMessage(cause: ClassifyError): (m: string)
    ensures |m| >= 35
    ensures m[..16] == "Pipeline error: " && m[|m| - 19..] == ". Please try again."
  {
    "Pipeline error: " + CauseText(cause) + ". Please try again."
  }

  /** The length gate on the tokenized text. */
  predicate LengthAccepted(tokenized: string) {
    !(|tokenized| < MinTextLength || |tokenized| > MaxTextLength)
  }

  /** The text the classifier sees and the history stores. */
  function PipelineText(text: string, lower: char -> char, wordTokenize: string -> seq<string>): string {
    TokenizedText(wordTokenize(CorrectSlangWords(StandardizeText(text, lower))))
  }

  /** How `full_pipeline` ends once the texts and the classifier's answer are
      known: the error branch if the classifier raised, then the length gate. */
  function Assemble(text: string, corrected: string, tokenized: string,
                    sentiment: Result<Entry, ClassifyError>): Outcome
  {
    if sentiment.Failure? then Crashed(sentiment.error)
    else if !LengthAccepted(tokenized) then InvalidLength
    else Classified(Record(tokenized, sentiment.value.tag),
                    Display(text, corrected, tokenized, sentiment.value.tag, sentiment.value.score * 100.0))
  }

  /** The outcome of `full_pipeline(text, sentiment_pipeline)`. */
  function PipelineOutcome(text: string, pipeline: Option<Scorer>, lower: char -> char,
                           wordTokenize: string -> seq<string>): Outcome
  {
    var tokenized := PipelineText(text, lower, wordTokenize);
    Assemble(text, CorrectSlangWords(StandardizeText(text, lower)), tokenized, Classification(tokenized, pipeline))
  }

  /** The outcome is assembled from the corrected and the tokenized text. */
  lemma OutcomeIsAssembled(text: string, pipeline: Option<Scorer>, lower: char -> char,
                           wordTokenize: string -> seq<string>, corrected: string, tokenized: string)
    requires corrected == CorrectSlangWords(StandardizeText(text, lower))
    requires tokenized == TokenizedText(wordTokenize(corrected))
    ensures PipelineOutcome(text, pipeline, lower, wordTokenize) ==
      Assemble(text, corrected, tokenized, Classification(tokenized, pipeline))
  {
  }

  /** `full_pipeline`: standardize, correct, tokenize, classify; refuse a
      tokenized text outside [5, 50] characters; otherwise save the record once
      and return it. Nothing is saved unless the run is classified, and a save
      whose insert fails is swallowed by the store. */
  method FullPipeline(text: string, pipeline: Option<Scorer>, lower: char -> char,
                      wordTokenize: string -> seq<string>, db: HistoryTable, now: string)
      returns (o: Outcome)
    requires db.Valid()
    modifies db
    ensures db.Valid()
    ensures o == PipelineOutcome(text, pipeline, lower, wordTokenize)
    ensures db.tableExists == old(db.tableExists)
    ensures !o.Classified? ==> db.rows == old(db.rows) && db.sequence == old(db.sequence) && db.issued == old(db.issued)
    ensures o.Classified? ==>
      (db.rows, db.sequence) == AfterSave(old(db.rows), old(db.sequence), old(db.tableExists),
                                          Some(o.record.text), o.record.sentiment, now)
  {
    var standardizedText := StandardizeText(text, lower);
    var correctedText := CorrectSlangWords(standardizedText);
    var tokenizedText := TokenizeText(correctedText, wordTokenize);
    var sentiment := ClassifySentiment(tokenizedText, pipeline);
    OutcomeIsAssembled(text, pipeline, lower, wordTokenize, correctedText, tokenizedText);
    if sentiment.Failure? {
      return Crashed(sentiment.error);
    }
    var result := Record(tokenizedText, sentiment.value.tag);
    if |result.text| < MinTextLength || |result.text| > MaxTextLength {
      return InvalidLength;
    }
    var saved := db.Save(Some(result.text), result.sentiment, now);
    var displayResult := Display(text, correctedText, tokenizedText, sentiment.value.tag, sentiment.value.score * 100.0);
    o := Classified(result, displayResult);
    assert o == Assemble(text, correctedText, tokenizedText, sentiment);
  }

  /** The gate decides on the tokenized text: once the classifier has
      answered, the run is refused exactly when that text is shorter than 5 or
      longer than 50 characters, and classified otherwise. */
  lemma GateOnTokenizedText(text: string, pipeline: Option<Scorer>, lower: char -> char,
                            wordTokenize: string -> seq<string>)
    requires Classification(PipelineText(text, lower, wordTokenize), pipeline).Success?
    ensures var t := PipelineText(text, lower, wordTokenize);
      PipelineOutcome(text, pipeline, lower, wordTokenize) == InvalidLength <==> |t| < 5 || |t| > 50
    ensures var t := PipelineText(text, lower, wordTokenize);
      PipelineOutcome(text, pipeline, lower, wordTokenize).Classified? <==> 5 <= |t| <= 50
  {
  }

  /** A classified run stores the tokenized text with the resolved label, and
      reports that label with the top score. */
  lemma ClassifiedRecord(text: string, pipeline: Option<Scorer>, lower: char -> char,
                         wordTokenize: string -> seq<string>)
    requires PipelineOutcome(text, pipeline, lower, wordTokenize).Classified?
    ensures var o := PipelineOutcome(text, pipeline, lower, wordTokenize);
      var t := PipelineText(text, lower, wordTokenize);
      && o.record.text == t && o.display.tokenizedText == t
      && MinTextLength <= |t| <= MaxSentenceLength
      && Classification(t, pipeline).Success?
      && o.record.sentiment == Classification(t, pipeline).value.tag
      && o.display.sentimentLabel == o.record.sentiment
      && o.display.originalText == text
      && o.display.sentimentScore == Classification(t, pipeline).value.score * 100.0
  {
  }

  /** Without a scorer every run ends in the error branch, whatever its length,
      and nothing is saved. */
  lemma NoScorerCrashes(text: string, lower: char -> char, wordTokenize: string -> seq<string>)
    ensures PipelineOutcome(text, None, lower, wordTokenize) == Crashed(PipelineNotInitialized)
  {
  }

  /** The gate's upper bound is the configured maximum sentence length. */
  lemma GateBoundIsConfigured()
    ensures MaxTextLength == MaxSentenceLength
  {
  }

  /** A three-letter input can pass the gate: "hqa" is corrected to "hôm qua",
      which the segmenter returns as one word and tokenization makes "hôm_qua". */
  lemma ShortInputPassesAfterCorrection(pipeline: Option<Scorer>, lower: char -> char,
                                        wordTokenize: string -> seq<string>)
    requires forall c :: 'a' <= c <= 'z' ==> lower(c) == c
    requires wordTokenize("hôm qua") == ["hôm qua"]
    requires pipeline.Some? && pipeline.value("hôm_qua") == [Entry(Some("NEU"), 0.9)]
    ensures PipelineText("hqa", lower, wordTokenize) == "hôm_qua"
    ensures PipelineOutcome("hqa", pipeline, lower, wordTokenize).Classified?
  {
    HqaStandardized(lower);
    HqaCorrected();
    HqaTokenized();
    var t := PipelineText("hqa", lower, wordTokenize);
    assert t == "hôm_qua";
    assert |t| == 7;
    OutcomeIsAssembled("hqa", pipeline, lower, wordTokenize, "hôm qua", t);
  }

  /** "hqa" is already standard when `lower` keeps ASCII lower-case letters. */
  lemma HqaStandardized(lower: char -> char)
    requires forall c :: 'a' <= c <= 'z' ==> lower(c) == c
    ensures StandardizeText("hqa", lower) == "hqa"
  {
    assert Trimmed("hqa");
    assert LowerWith("hqa", lower) == "hqa";
  }

  /** "hqa" is the key of "hôm qua". */
  lemma HqaCorrected()
    ensures CorrectSlangWords("hqa") == "hôm qua"
  {
    WordSplitsToItself("hqa");
    assert CorrectWords(["hqa"]) == ["hôm qua"];
  }

  /** The single segment "hôm qua" is tokenized as "hôm_qua". */
  lemma HqaTokenized()
    ensures TokenizedText(["hôm qua"]) == "hôm_qua"
  {
    assert ReplaceSpaces("hôm qua") == "hôm_qua";
    assert Underscored(["hôm qua"]) == ["hôm_qua"];
  }

  // ---------------------------------------------------------------------------
  // The value `full_pipeline` returns and how line 172 unpacks it
  // ---------------------------------------------------------------------------

  /** A Python tuple of the shapes `full_pipeline` returns. */
  datatype PipelineReturn =
    | Triple(result: Option<Record>, display: Option<Display>, error: Option<string>)
    | Pair(first: Option<Record>, second: string)

  /** The returns as written: lines 33 and 48 give three values, the `except`
      branch at line 51 only two. */
  function AsWrittenReturn(o: Outcome): PipelineReturn {
    match o
    case Classified(r, d) => Triple(Some(r), Some(d), None)
    case InvalidLength => Triple(None, None, Some(InvalidLengthMessage))
    case Crashed(cause) => Pair(None, CrashMessage(cause))
  }

  /** The evidently intended returns: the error branch gives
      `None, None, message`, like the length gate. */
  function FixedReturn(o: Outcome): PipelineReturn {
    match o
    case Classified(r, d) => Triple(Some(r), Some(d), None)
    case InvalidLength => Triple(None, None, Some(InvalidLengthMessage))
    case Crashed(cause) => Triple(None, None, Some(CrashMessage(cause)))
  }

  /** `result, display_result, error = ...`: three values unpack, two raise
      `ValueError`. */
  function Unpack3(ret: PipelineReturn): Result<(Option<Record>, Option<Display>, Option<string>), string> {
    match ret
    case Triple(r, d, e) => Success((r, d, e))
    case Pair(_, _) => Failure("not enough values to unpack (expected 3, got 2)")
  }

  /** As written, every run that reaches the `except` branch makes line 172
      raise instead of showing the error message. In the app such a run is one
      where the scorer raises, or where `sqlite3.connect` fails in
      `save_to_sqlite` so that `finally: if conn:` raises `UnboundLocalError`;
      the first clause is `full_pipeline` called on its own without a scorer. */
  lemma AsWrittenCrashCannotUnpack(text: string, lower: char -> char, wordTokenize: string -> seq<string>)
    ensures Unpack3(AsWrittenReturn(PipelineOutcome(text, None, lower, wordTokenize))).Failure?
    ensures forall cause :: Unpack3(AsWrittenReturn(Crashed(cause))).Failure?
  {
  }

  /** With the fix every outcome unpacks; the error is present exactly when
      nothing was classified, and the record and display exactly when it was. */
  lemma FixedReturnUnpacks(o: Outcome)
    ensures Unpack3(FixedReturn(o)).Success?
    ensures var (r, d, e) := Unpack3(FixedReturn(o)).value;
      (e.Some? <==> !o.Classified?) && (r.Some? <==> o.Classified?) && (d.Some? <==> o.Classified?)
    ensures o.Crashed? ==> Unpack3(FixedReturn(o)).value.2 == Some(CrashMessage(o.cause))
    ensures AsWrittenReturn(o).Triple? ==> FixedReturn(o) == AsWrittenReturn(o)
  {
  }

  // ---------------------------------------------------------------------------
  // Handlers that reset the navigation
  // ---------------------------------------------------------------------------

  /** Lines 170-172 with the fixed return: the "analyze" button resets the
      history navigation to the first page, runs the pipeline and unpacks its
      result. */
  method OnAnalyze(session: PaginationSession, db: HistoryTable, text: string, pipeline: Option<Scorer>,
                   lower: char -> char, wordTokenize: string -> seq<string>, now: string)
      returns (result: Option<Record>, displayResult: Option<Display>, error: Option<string>)
    requires db.Valid()
    modifies session, db
    ensures db.Valid() && session.Valid() && session.State() == Start
    ensures (result, displayResult, error) == Unpack3(FixedReturn(PipelineOutcome(text, pipeline, lower, wordTokenize))).value
    ensures db.tableExists == old(db.tableExists)
    ensures var o := PipelineOutcome(text, pipeline, lower, wordTokenize);
      !o.Classified? ==> db.rows == old(db.rows) && db.sequence == old(db.sequence) && db.issued == old(db.issued)
    ensures var o := PipelineOutcome(text, pipeline, lower, wordTokenize);
      o.Classified? ==>
        (db.rows, db.sequence) == AfterSave(old(db.rows), old(db.sequence), old(db.tableExists),
                                            Some(o.record.text), o.record.sentiment, now)
  {
    session.ResetPagination();
    var o := FullPipeline(text, pipeline, lower, wordTokenize, db, now);
    FixedReturnUnpacks(o);
    var unpacked := Unpack3(FixedReturn(o)).value;
    result, displayResult, error := unpacked.0, unpacked.1, unpacked.2;
  }

  /** Lines 93-96: confirming "delete all" empties the history and goes back to
      the first page; later ids still exceed every id handed out so far. */
  method OnConfirmDeleteAll(session: PaginationSession, db: HistoryTable)
    requires db.Valid()
    modifies session, db
    ensures db.Valid() && session.Valid() && session.State() == Start
    ensures db.rows == [] && db.sequence == old(db.sequence) && db.issued == old(db.issued)
    ensures db.tableExists == old(db.tableExists)
  {
    var deleted := db.DeleteAllRecords();
    session.ResetPagination();
  }
}
