# VNSAA sentiment core in Dafny

VNSAA is a Streamlit application that classifies the sentiment of a short
Vietnamese sentence. Behind the user interface there is a fixed processing
path:

1. The text is standardized: stripped and lower-cased.
2. Slang and unaccented tokens are corrected from a table.
3. The text is segmented into words, and the spaces inside multi-syllable
   words become `_`.
4. A `transformers` scorer classifies the segmented text. The label resolver
   picks the top-scoring entry and maps `POS`/`NEG`/`NEU` to full names. A
   score below 0.5 is forced to neutral.
5. A length gate keeps only segmented texts of 5 to 50 characters.
6. The accepted result is saved to an SQLite history table.

The history is browsed 50 rows at a time with keyset pagination kept in the
session state.

This project models that core and proves its properties:

- `wrappers.dfy` holds `Option` and `Result`.
- `pystr.dfy` holds the Python `str` built-ins the chain relies on:
  `strip`, `lower`, `split()`, `" ".join` and `replace`. It also defines
  `split(" ")`, which the source never calls: it is the reference inverse of
  the `" ".join` in `tokenize_text`, used to state that the tokenized text
  consists of the processed segments piece by piece.
- `constant.dfy` holds the configuration and the slang table.
- `preprocessing.dfy` holds `standardize_text`, `correct_slang_words` and `tokenize_text`.
- `sentiment_classification.dfy` holds `classify_sentiment` and `get_sentiment_label`.
- `database.dfy` holds the history table as a class: its rows, whether it
  exists, and SQLite's AUTOINCREMENT counter.
- `pagination.dfy` holds the three pagination fields of the session state,
  as a value (`Cursor`) and as a class with methods.
- `app.py`'s logic lives in `app.dfy`: `full_pipeline`, and the "analyze" and
  "delete all" handlers that reset the navigation.

Several foreign functions become parameters:

- `lower: char -> char` stands for Unicode `str.lower()`, character by character.
- `wordTokenize` stands for `underthesea.word_tokenize`.
- The scorer is `Option<string -> seq<Entry>>`.
- `now` is the value SQLite's `CURRENT_TIMESTAMP` gives the row.
- `hasMoreRecords` is the store's answer for the next page.

Where the code and its description differ, the model follows the code:

- **Pagination history on page 2.** The history stack is empty on the first
  page but also on the second: `go_to_next_page` pushes the old last id only
  when there was one. So the invariant is one-directional: first page implies
  empty stack.
- **Empty scorer output.** `max()` over an empty scorer output raises
  `ValueError`, and `full_pipeline` catches it. It is modelled as the error
  `EmptyScores`, not as a precondition.

## Model

| member | source | states |
|---|---|---|
| PyStr.IsSpace | preprocessing.py:5 | the characters of Python's `str.isspace()`, which `strip()` and `split()` treat as whitespace |
| PyStr.LStrip | preprocessing.py:5 | `lstrip` drops exactly a whitespace prefix: all dropped characters are whitespace and the result does not start with one |
| PyStr.RStrip | preprocessing.py:5 | `rstrip` drops exactly a whitespace suffix: all dropped characters are whitespace and the result does not end with one |
| PyStr.LStripIsSuffix | preprocessing.py:5 | the result of `lstrip` is a suffix of the input |
| PyStr.RStripIsPrefix | preprocessing.py:5 | the result of `rstrip` is a prefix of the input |
| PyStr.Strip | preprocessing.py:5 | `strip()` is the substring between a blank prefix and a blank suffix of the input; it is trimmed, empty exactly for blank input, and leaves a trimmed input unchanged |
| PyStr.StripCut | preprocessing.py:5 | the cut points of `strip()`: after the whitespace `lstrip` drops and before the whitespace `rstrip` then drops |
| PyStr.LowerWith | preprocessing.py:5 | `lower()` keeps the length and maps every character through the case mapping |
| PyStr.Split | preprocessing.py:9 | every token of `split()` is non-empty and free of whitespace |
| PyStr.SplitEmptyIffBlank | preprocessing.py:9 | `split()` gives no tokens exactly when the text is blank |
| PyStr.SplitAroundSpace | preprocessing.py:9 | a whitespace character separates: the tokens of `a + c + b` are those of `a` followed by those of `b` |
| PyStr.WordSplitsToItself | preprocessing.py:9 | one whitespace-free word splits into itself |
| PyStr.SplitJoin | preprocessing.py:9-11 | splitting a space-join of words gives back those words |
| PyStr.Join | preprocessing.py:11 | `" ".join`: the pieces in order with exactly one space between neighbours, "" for no pieces; its properties are the lemmas below |
| PyStr.JoinLength | preprocessing.py:11 | `" ".join` of n pieces has length of the pieces plus n-1 and starts with the first piece |
| PyStr.JoinAppend | preprocessing.py:11 | joining two lists end to end is the two joins glued by one space |
| PyStr.JoinTidy | preprocessing.py:11 | joining non-empty tidy pieces gives a string without leading, trailing or doubled spaces |
| PyStr.TidyIffJoinSplit | preprocessing.py:9-11 | `" ".join(s.split()) == s` exactly when `s` is tidy |
| PyStr.ReplaceSpaces | preprocessing.py:21 | `replace(" ", "_")` keeps the length and turns each ' ' into '_' and nothing else |
| PyStr.SplitOnSpace | preprocessing.py:22 | the reference inverse of the join at this line, Python's `split(" ")`: it gives at least one piece, none containing ' ' |
| PyStr.JoinSplitOnSpace | preprocessing.py:22 | `" ".join(s.split(" ")) == s` for every string |
| PyStr.SplitOnSpaceJoin | preprocessing.py:22 | pieces without ' ' are recovered from their join by `split(" ")` |
| Constant.CorrectionDict | constant.py:5-32 | the 26 entries of `CORRECTION_DICT`, keys and values transcribed as written |
| Constant.KeysAreLowerCaseWords | constant.py:5-32 | every key of the slang table is a non-empty lower-case ASCII token without whitespace |
| Constant.PhraseWordsAreWords | constant.py:5-32 | every word used in a replacement value is a whitespace-free token |
| Constant.PhrasesAreTidy | constant.py:5-32 | every distinct value is a non-empty tidy phrase built from the listed words |
| Constant.PhraseWordsAreNotKeys | constant.py:5-32 | no word used in a value is a key |
| Constant.ValuesAreFixedPhrases | constant.py:5-32 | every value is non-empty and tidy, and none of its words is a key |
| Constant.NotInjective | constant.py:16-20 | "k", "ko" and "hok" all map to "không"; "dk" and "dc" both map to "được" |
| Preprocessing.StandardizeText | preprocessing.py:4-6 | `text.strip().lower()`: `Strip` followed by `LowerWith`; its properties are the two lemmas below |
| Preprocessing.StandardizeTrimmed | preprocessing.py:4-6 | for a case mapping that never turns a non-whitespace character into whitespace (Python's `lower()` does not), the standardized text has no whitespace at either end, and is empty exactly when the input is blank |
| Preprocessing.StandardizeIdempotent | preprocessing.py:4-6 | standardizing twice is standardizing once, for an idempotent case mapping that keeps non-whitespace |
| Preprocessing.LowerTwice | preprocessing.py:5 | lower-casing twice is lower-casing once when the case mapping is idempotent |
| Preprocessing.Lookup | preprocessing.py:10 | `CORRECTION_DICT.get(w, w)`: the table's value for a key, the token itself otherwise |
| Preprocessing.CorrectWords | preprocessing.py:10 | the comprehension keeps the number and order of tokens and replaces each by its table entry or itself |
| Preprocessing.CorrectSlangWords | preprocessing.py:8-12 | `correct_slang_words`: split, look up each token, join with single spaces; its properties are the lemmas below |
| Preprocessing.CorrectWordsAppend | preprocessing.py:10 | correcting a concatenation of token lists corrects each part |
| Preprocessing.CorrectJoinedWords | preprocessing.py:8-12 | on words joined by single spaces, correction looks up each word in order |
| Preprocessing.UnlistedWordKept | preprocessing.py:10 | a token that is not a key is left unchanged |
| Preprocessing.CorrectedTokensAreFixed | preprocessing.py:10 | every corrected token is a non-empty tidy phrase with no key among its words |
| Preprocessing.FixedPhraseIsFixed | preprocessing.py:8-12 | correcting such a phrase returns it unchanged |
| Preprocessing.CorrectAroundSpace | preprocessing.py:8-12 | correction distributes over one space between two non-blank texts |
| Preprocessing.CorrectJoinOfFixed | preprocessing.py:8-12 | correcting a space-join of fixed phrases returns that join |
| Preprocessing.CorrectIdempotent | preprocessing.py:8-12 | correcting twice is correcting once |
| Preprocessing.CorrectIsTidy | preprocessing.py:9-11 | corrected text has no leading, trailing or doubled spaces |
| Preprocessing.CorrectEmptyIffBlank | preprocessing.py:9-11 | correction returns "" exactly for blank input |
| Preprocessing.CorrectWithoutSlang | preprocessing.py:9-11 | without slang tokens, correction only normalizes whitespace, and a tidy text is unchanged |
| Preprocessing.CorrectExample | preprocessing.py:10 | "k khoe" corrects to "không khoe": the token "k" is replaced, the "k" inside "khoe" is not |
| Preprocessing.CorrectionCanAddTokens | constant.py:21 | "bt" is one token, and its correction "bình thường" splits into two |
| Preprocessing.Underscored | preprocessing.py:20-21 | one processed token per segment, each the segment with its spaces replaced |
| Preprocessing.TokenizedText | preprocessing.py:19-22 | the value `tokenize_text` returns for the segments: the underscored segments joined by single spaces |
| Preprocessing.TokenizeText | preprocessing.py:14-24 | the loop appends each processed segment in order and the result is their space-join |
| Preprocessing.TokenizedPieces | preprocessing.py:20-22 | `split(" ")` of the tokenized text gives back the processed segments, none containing a space |
| Preprocessing.UnderscoredLength | preprocessing.py:21 | replacing spaces keeps the total length of the segments |
| Preprocessing.TokenizedLength | preprocessing.py:21-22 | the tokenized text is the segments' total length plus n-1 separators, and empty without segments |
| SentimentClassification.SentimentLabel | sentiment_classification.py:16-23 | `get_sentiment_label` gives a value exactly for POS/NEG/NEU, and that value is a full label |
| SentimentClassification.SentimentLabelBijective | sentiment_classification.py:16-23 | the label mapping is a bijection between short and full labels, inverted by `ShortLabel` |
| SentimentClassification.ArgMax | sentiment_classification.py:9 | `max(..., key=score)` picks an entry of maximal score before which every score is strictly smaller |
| SentimentClassification.FirstMaxUnique | sentiment_classification.py:9 | there is exactly one such first maximum |
| SentimentClassification.Resolve | sentiment_classification.py:12-25 | score unchanged; below 0.5 the label is NEUTRAL; otherwise the mapping of the entry's own label; no label exactly for a confident unknown label |
| SentimentClassification.Classification | sentiment_classification.py:1-27 | no scorer raises before scoring; an empty output raises; otherwise the returned score is that of the first maximal entry |
| SentimentClassification.ClassificationOfFirstMax | sentiment_classification.py:9-27 | the result is the resolved first maximal entry, however that entry is found |
| SentimentClassification.ClassificationScoreIsMax | sentiment_classification.py:9-27 | the returned score is at least every score of the output and is the score of one of its entries |
| SentimentClassification.ClassificationLabelRange | sentiment_classification.py:12-25 | the returned label is a full label, or none only for a confident entry |
| SentimentClassification.ResolveInPlace | sentiment_classification.py:9-25 | only the first maximal entry is overwritten, by its resolution; every other entry is left as it was |
| SentimentClassification.ClassifySentiment | sentiment_classification.py:1-27 | the method returns or raises exactly what `Classification` states |
| SentimentClassification.LowConfidenceExample | sentiment_classification.py:12-13 | POS 0.4, NEG 0.3, NEU 0.3 resolves to NEUTRAL with score 0.4 |
| SentimentClassification.TieExample | sentiment_classification.py:9 | on a tie (NEG 0.5, POS 0.5) the first entry wins: NEGATIVE |
| Database.InsertSucceeds | database.py:13-31 | the `INSERT` succeeds exactly when the table exists, neither value is NULL (`NOT NULL`) and the counter is below the largest rowid |
| Database.AfterSave | database.py:23-37 | rows and counter after `save_to_sqlite`: one new row with the next id on success, everything unchanged on a swallowed failure |
| Database.NewestFirst | database.py:43 | the page has min(n, rows) entries, the i-th being the i-th newest row |
| Database.NewestFirstIsTopByID | database.py:43 | if ids ascend in insertion order, the page has at most 50 rows in strictly descending id order, all from the table, and every row left out is older than every row shown |
| Database.NewestFirstOfThree | database.py:28-43 | the last three rows inserted head the page, newest first |
| Database.HistoryTable.Valid | database.py:13 | the table invariant: ids ascend in insertion order, every row's id was issued, every issued id is at most the counter (so AUTOINCREMENT never reuses one), and a missing table has no rows and a zero counter |
| Database.HistoryTable.constructor | database.py:8-20 | a database file without the table: no rows, counter 0 |
| Database.HistoryTable.InitializeDatabase | database.py:8-20 | afterwards the table exists, with rows and counter unchanged (`IF NOT EXISTS`) |
| Database.HistoryTable.Save | database.py:23-37 | an insert succeeds exactly when the table exists, both values are non-null and the counter is below the maximum rowid; it then appends one row whose id exceeds every id ever assigned; a failure is swallowed and changes nothing |
| Database.HistoryTable.Load | database.py:40-50 | the 50 newest rows, newest first, or empty when the table is missing; the table is not changed |
| Database.HistoryTable.DeleteAllRecords | database.py:52-62 | the table is emptied, the counter keeps its value, and a missing table is swallowed |
| Database.SaveThreeThenLoad | database.py:23-50 | saving A, B, C then loading gives C, B, A at the head with consecutive new ids |
| Database.DeleteThenSave | database.py:23-62 | after delete-all the history loads empty, and the next row's id is above every id assigned before |
| Pagination.Consistent | app.py:116-126 | the navigation invariant: on the first page the history stack is empty |
| Pagination.PageNumber | app.py:146-150 | the page number is 1 exactly on the first page, otherwise the stack size plus 2 |
| Pagination.LastIdOf | app.py:109-111 | `current_last_id` is the id of the page's last row, and None exactly for an empty page |
| Pagination.AfterLoad | app.py:109-114 | `has_more` is the store's answer for the last id, False for an empty page; the rest is unchanged |
| Pagination.NextPage | app.py:116-120 | no-op without a current last id; otherwise pushes the old last id only if it exists, then moves to the current last id |
| Pagination.PreviousPage | app.py:122-126 | pops the stack into the last id, or returns to the first page when it is empty |
| Pagination.OperationsKeepConsistent | app.py:61-126 | reset, load, next and previous all keep "first page implies empty stack" |
| Pagination.PreviousUndoesNext | app.py:116-126 | Previous after a successful Next restores the exact prior state |
| Pagination.PageNumberSteps | app.py:116-150 | Next raises the page number by 1; Previous lowers it by 1 beyond page 1 and is a no-op on page 1 |
| Pagination.NextAllAdvances | app.py:116-150 | k Next steps keep the invariant and raise the page number by k |
| Pagination.PreviousTimesUndoesNextAll | app.py:116-126 | k Previous steps undo k Next steps exactly |
| Pagination.PaginationSession.constructor | app.py:61-66 | the session starts on the first page with an empty stack and no next page |
| Pagination.PaginationSession.ResetPagination | app.py:68-71 | the state becomes (None, [], False) |
| Pagination.PaginationSession.ShowPage | app.py:109-114 | the method sets `has_more` as `AfterLoad` states and returns `current_last_id` |
| Pagination.PaginationSession.GoToNextPage | app.py:116-120 | applies `NextPage` to the session state in place |
| Pagination.PaginationSession.GoToPreviousPage | app.py:122-126 | applies `PreviousPage` to the session state in place |
| App.LengthAccepted | app.py:32 | the gate accepts exactly the texts of 5 to 50 characters |
| App.CauseText | app.py:51 | `str(e)` of the two exceptions `classify_sentiment` can raise |
| App.CrashMessage | app.py:51 | the error text begins "Pipeline error: " and ends ". Please try again." |
| App.PipelineText | app.py:14-20 | the tokenized text: standardized, corrected and tokenized input, which is what the scorer sees and the gate measures |
| App.Assemble | app.py:23-48 | how `full_pipeline` ends given its texts and the classifier's answer: the error branch if it raised, else refusal outside [5, 50], else the record and the display |
| App.PipelineOutcome | app.py:9-51 | `full_pipeline` as a function of its inputs: `Assemble` applied to the corrected text, `PipelineText` and the classification of that text |
| App.FullPipeline | app.py:9-51 | the run ends as `PipelineOutcome` states; the table is changed only by the one save of a classified run, as `AfterSave` states |
| App.GateOnTokenizedText | app.py:20-33 | once the classifier has answered, the run is refused exactly when the tokenized text has fewer than 5 or more than 50 characters |
| App.ClassifiedRecord | app.py:26-45 | a classified run stores the tokenized text with the resolved label and displays the original text, that label and 100 times the top score |
| App.NoScorerCrashes | app.py:23-51 | without a scorer every run ends in the error branch, whatever its length |
| App.GateBoundIsConfigured | app.py:32 | the gate's upper bound equals `MAX_SENTENCE_LENGTH` |
| App.ShortInputPassesAfterCorrection | app.py:14-32 | the three-letter input "hqa" passes the gate, because it becomes "hôm_qua" |
| App.AsWrittenReturn | app.py:33-51 | the tuples as written: three values at lines 33 and 48, two at line 51 |
| App.FixedReturn | app.py:33-51 | the corrected tuples: three values in every branch, `None, None, message` at line 51 |
| App.Unpack3 | app.py:172 | `result, display_result, error = ...`: a triple unpacks, a pair raises `ValueError` |
| App.AsWrittenCrashCannotUnpack | app.py:51 | as written, every run reaching the error branch returns two values, and the three-way unpacking at line 172 fails |
| App.FixedReturnUnpacks | app.py:33-51 | with the error branch returning three values, every outcome unpacks; the error is present exactly when nothing was classified, and it is unchanged for the other branches |
| App.OnAnalyze | app.py:170-172 | navigation reset to the first page, pipeline run, and the (fixed) triple unpacked; the table still exists, is unchanged unless the run is classified, and a classified run changes it as `AfterSave` states |
| App.OnConfirmDeleteAll | app.py:92-97 | the history is emptied, the table still exists, the counter is kept and the navigation reset |

## Left out

- The Streamlit user interface and `utils.py`: layout, buttons, dialogs, table rendering, `st.rerun` and `st.error`.
- `model_loading.py` and `train_svm_phobert.py`: loading and training the models are foreign library calls and floating-point numerics.
- The internals of `underthesea.word_tokenize`: it is a parameter with no assumed properties.
- Unicode `str.lower()`: modelled as a per-character mapping. It cannot express Python's length-changing case
  mappings (for example "İ" lowers to two characters), nor its context-dependent ones: Greek capital sigma
  lowers to final sigma "ς" at the end of a word and to "σ" elsewhere.
- Preprocessing.StandardizeIdempotent: assumes this mapping is idempotent and keeps non-whitespace characters.
  Python's `lower()` is not shown to satisfy these assumptions for every character.
- `round(score * 100, 2)` (app.py:44): the display score is `score * 100` on reals, without rounding to two decimals.
- Scores are reals: float NaN, which makes `max` order-dependent, is not modelled.
- Exceptions raised by the scorer itself lead to the error branch in the code.
  The model's scorer is a total function, so it never raises.
- The exact text of `max()`'s `ValueError` on an empty sequence depends on the Python version.
  The model uses the text of current CPython.
- Real sqlite3 connections: I/O faults, locking, and files on disk are not modelled.
  Connection failures are left out too, including the unbound `conn` in the `finally` blocks (database.py:36,49,61).
  The model covers only the failures decided by the table's state: missing table, `NOT NULL` and exhausted rowids.
- `CURRENT_TIMESTAMP`: the timestamp is the parameter `now`.
- `has_more_records` and `get_total_pages`, and the `last_id` argument of `load_data_from_sqlite`: app.py:2,107,112,151 import or pass them, but database.py does not define them.
  Their bodies are not part of this model. The page shown and the answer of `has_more_records` are inputs of `ShowPage`, and the total page count is not modelled.
- The repeated rendering of the Streamlit script on every interaction: each handler is one method call.

## Findings

| source | as written | input that shows it | evidently intended | confidence | as-written member | corrected member |
|---|---|---|---|---|---|---|
| app.py:51 | the `except` branch returns two values, `None, message`, while line 172 unpacks three | from the app: any exception inside the `try`, for example the scorer raising, or `sqlite3.connect` failing in `save_to_sqlite`, whose `finally: if conn:` then raises `UnboundLocalError` (database.py:25,36); on `full_pipeline` called directly also `sentiment_pipeline` being `None` | return `None, None, message`, like the length gate at line 33, so the error is shown | not executed | App.AsWrittenCrashCannotUnpack | App.FixedReturnUnpacks |
