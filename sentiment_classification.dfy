/**
 * `classify_sentiment`: the label resolver that turns the scorer's output into
 * one labelled sentiment.
 *
 * The scorer (a `transformers` text-classification pipeline) is a parameter: it
 * is either absent (`None`) or a function from the text to a list of entries,
 * each a dictionary with a `label` and a `score`. Scores are reals; the resolver
 * only compares them.
 */
module SentimentClassification {
  import opened Wrappers

  /** One dictionary of the scorer's output. Its `label` key is the field
      `tag` (`label` is a Dafny keyword). The tag is optional because
      `get_sentiment_label` yields `None` for a label it does not know, and that
      `None` is written back into the dictionary. */
  datatype Entry = Entry(tag: Option<string>, score: real)

  /** The scorer: text to scored labels. */
  type Scorer = string -> seq<Entry>

  /** Why `classify_sentiment` raises: no scorer was loaded, or the scorer
      returned an empty list, on which Python's `max` raises `ValueError`. */
  datatype ClassifyError = PipelineNotInitialized | EmptyScores

  /** Below this score the top label is replaced by "NEU". */
  const LowConfidence: real := 0.5

  /** The labels `get_sentiment_label` knows, short and full. */
  const ShortLabels: set<string> := {"POS", "NEG", "NEU"}
  const FullLabels: set<string> := {"POSITIVE", "NEGATIVE", "NEUTRAL"}

  /** `get_sentiment_label`: the full name of a short label; any other value
      falls through the `match` and the function returns `None`. */
  function SentimentLabel(raw: Option<string>): (r: Option<string>)
    ensures r.Some? <==> raw.Some? && raw.value in ShortLabels
    ensures r.Some? ==> r.value in FullLabels
  {
    match raw
    case Some("POS") => Some("POSITIVE")
    case Some("NEG") => Some("NEGATIVE")
    case Some("NEU") => Some("NEUTRAL")
    case _ => None
  }

  /** The short label a full name came from: the inverse of `SentimentLabel`. */
  function ShortLabel(full: string): (r: string)
    requires full in FullLabels
    ensures r in ShortLabels
  {
    if full == "POSITIVE" then "POS" else if full == "NEGATIVE" then "NEG" else "NEU"
  }

  /** `SentimentLabel` is a bijection between the short and the full labels. */
  lemma SentimentLabelBijective(short: string, full: string)
    requires short in ShortLabels && full in FullLabels
    ensures SentimentLabel(Some(short)) == Some(full) <==> ShortLabel(full) == short
  {
  }

  /** Index k holds the first maximal score of s: no score is larger, and every
      earlier score is strictly smaller. This is the element Python's
      `max(raw_result, key=lambda x: x['score'])` returns. */
  ghost predicate IsFirstMax(s: seq<Entry>, k: int) {
    && 0 <= k < |s|
    && (forall i :: 0 <= i < |s| ==> s[i].score <= s[k].score)
    && (forall i :: 0 <= i < k ==> s[i].score < s[k].score)
  }

  /** The position of the element `max` returns: scanning left to right, the
      current maximum is replaced only by a strictly larger score. */
  function ArgMax(s: seq<Entry>): (k: nat)
    requires |s| > 0
    ensures IsFirstMax(s, k)
  {
    if |s| == 1 then 0
    else
      var k := ArgMax(s[..|s| - 1]);
      if s[k].score < s[|s| - 1].score then |s| - 1 else k
  }

  /** There is only one first maximum. */
  lemma FirstMaxUnique(s: seq<Entry>, j: int, k: int)
    requires IsFirstMax(s, j) && IsFirstMax(s, k)
    ensures j == k
  {
    var lo, hi := if j < k then j else k, if j < k then k else j;
    assert IsFirstMax(s, hi) && s[lo].score <= s[hi].score;
    assert IsFirstMax(s, lo) && s[hi].score <= s[lo].score;
  }

  /** Lines 12-25 applied to the chosen entry: a score below 0.5 forces the
      label to "NEU", then the label is replaced by its full name. The score is
      never touched; a confident entry keeps its own label's full name. */
  function Resolve(top: Entry): (r: Entry)
    ensures r.score == top.score
    ensures top.score < LowConfidence ==> r.tag == Some("NEUTRAL")
    ensures LowConfidence <= top.score ==> r.tag == SentimentLabel(top.tag)
    ensures r.tag.None? <==> LowConfidence <= top.score && !(top.tag.Some? && top.tag.value in ShortLabels)
  {
    var forced := if top.score < LowConfidence then top.(tag := Some("NEU")) else top;
    forced.(tag := SentimentLabel(forced.tag))
  }

  /** What `classify_sentiment(text, sentiment_pipeline)` returns or raises. */
  function Classification(text: string, pipeline: Option<Scorer>): (r: Result<Entry, ClassifyError>)
    ensures pipeline.None? ==> r == Failure(PipelineNotInitialized)
    ensures pipeline.Some? ==> (r == Failure(EmptyScores) <==> |pipeline.value(text)| == 0)
    ensures r.Success? ==> pipeline.Some? && r.value.score == pipeline.value(text)[ArgMax(pipeline.value(text))].score
  {
    if pipeline.None? then Failure(PipelineNotInitialized)
    else
      var raw := pipeline.value(text);
      if |raw| == 0 then Failure(EmptyScores) else Success(Resolve(raw[ArgMax(raw)]))
  }

  /** The classification is the resolved first maximum of the scorer's output,
      whichever way that maximum is found. */
  lemma ClassificationOfFirstMax(text: string, scorer: Scorer, k: int)
    requires IsFirstMax(scorer(text), k)
    ensures Classification(text, Some(scorer)) == Success(Resolve(scorer(text)[k]))
  {
    FirstMaxUnique(scorer(text), k, ArgMax(scorer(text)));
  }

  /** The returned score is the largest score of the scorer's output, and it is
      the score of one of its entries. */
  lemma ClassificationScoreIsMax(text: string, scorer: Scorer)
    requires Classification(text, Some(scorer)).Success?
    ensures forall e :: e in scorer(text) ==> e.score <= Classification(text, Some(scorer)).value.score
    ensures exists i :: 0 <= i < |scorer(text)| && scorer(text)[i].score == Classification(text, Some(scorer)).value.score
  {
    var raw := scorer(text);
    var k := ArgMax(raw);
    forall e | e in raw ensures e.score <= raw[k].score {
      var i :| 0 <= i < |raw| && raw[i] == e;
    }
  }

  /** The returned label is a full label or, only for a confident entry with
      an unknown label, none. */
  lemma ClassificationLabelRange(text: string, scorer: Scorer)
    requires Classification(text, Some(scorer)).Success?
    ensures var e := Classification(text, Some(scorer)).value;
      (e.tag.Some? ==> e.tag.value in FullLabels) && (e.tag.None? ==> LowConfidence <= e.score)
  {
  }

  /** The label-resolution steps performed in place on the scorer's list: the
      first maximal entry is found, its label is overwritten once or twice, and
      every other entry, and every score, is left as it was. Returns the index of
      the entry that was changed. */
  method ResolveInPlace(a: array<Entry>) returns (k: nat)
    requires a.Length > 0
    modifies a
    ensures IsFirstMax(old(a[..]), k)
    ensures a[..] == old(a[..])[k := Resolve(old(a[k]))]
  {
    k := ArgMax(a[..]);
    if a[k].score < LowConfidence {
      a[k] := a[k].(tag := Some("NEU"));
    }
    a[k] := a[k].(tag := SentimentLabel(a[k].tag));
  }

  /** `classify_sentiment`: raise without calling the scorer if there is none;
      call it; pick and resolve the first maximal entry in place; return it. */
  method ClassifySentiment(text: string, pipeline: Option<Scorer>) returns (r: Result<Entry, ClassifyError>)
    ensures r == Classification(text, pipeline)
  {
    if pipeline.None? {
      return Failure(PipelineNotInitialized);
    }
    var raw := pipeline.value(text);
    if |raw| == 0 {
      return Failure(EmptyScores);
    }
    var a := new Entry[|raw|](i requires 0 <= i < |raw| => raw[i]);
    assert a[..] == raw;
    var k := ResolveInPlace(a);
    r := Success(a[k]);
  }

  /** A low top score yields NEUTRAL whatever the top label was, and keeps the
      score: POS 0.4, NEG 0.3, NEU 0.3 resolves to NEUTRAL with 0.4. */
  lemma LowConfidenceExample(scorer: Scorer, text: string)
    requires scorer(text) == [Entry(Some("POS"), 0.4), Entry(Some("NEG"), 0.3), Entry(Some("NEU"), 0.3)]
    ensures Classification(text, Some(scorer)) == Success(Entry(Some("NEUTRAL"), 0.4))
  {
    ClassificationOfFirstMax(text, scorer, 0);
  }

  /** On a tie the first entry wins: NEG 0.5 before POS 0.5 resolves to NEGATIVE. */
  lemma TieExample(scorer: Scorer, text: string)
    requires scorer(text) == [Entry(Some("NEG"), 0.5), Entry(Some("POS"), 0.5)]
    ensures Classification(text, Some(scorer)) == Success(Entry(Some("NEGATIVE"), 0.5))
  {
    ClassificationOfFirstMax(text, scorer, 0);
  }
}
