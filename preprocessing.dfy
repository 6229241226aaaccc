/**
 * The text pre-processing chain of the classifier: `standardize_text`,
 * `correct_slang_words` and `tokenize_text`.
 *
 * Two foreign functions enter as parameters: `lower`, the per-character case
 * mapping that stands for `str.lower()`, and `wordTokenize`, the Vietnamese
 * word segmenter `underthesea.word_tokenize`.
 */
module Preprocessing {
  import opened PyStr
  import opened Constant

  // ---------------------------------------------------------------------------
  // standardize_text
  // ---------------------------------------------------------------------------

  /** What `standardize_text` needs of the case mapping: it never turns a
      non-whitespace character into whitespace, and mapping twice is mapping once. */
  ghost predicate CaseMapping(lower: char -> char) {
    && (forall c {:trigger lower(c)} :: !IsSpace(c) ==> !IsSpace(lower(c)))
    && (forall c {:trigger lower(lower(c))} :: lower(lower(c)) == lower(c))
  }

  /** `text.strip().lower()`. */
  function StandardizeText(text: string, lower: char -> char): string {
    LowerWith(Strip(text), lower)
  }

  /** The standardized text has no whitespace at either end; it is empty exactly
      when the input is blank. */
  lemma StandardizeTrimmed(text: string, lower: char -> char)
    requires forall c :: !IsSpace(c) ==> !IsSpace(lower(c))
    ensures Trimmed(StandardizeText(text, lower))
    ensures StandardizeText(text, lower) == "" <==> Blank(text)
  {
    var s := Strip(text);
    assert |s| > 0 ==> !IsSpace(s[0]) && !IsSpace(s[|s| - 1]);
  }

  /** Standardizing a standardized text changes nothing. */
  lemma StandardizeIdempotent(text: string, lower: char -> char)
    requires CaseMapping(lower)
    ensures StandardizeText(StandardizeText(text, lower), lower) == StandardizeText(text, lower)
  {
    var stripped := Strip(text);
    var once := LowerWith(stripped, lower);
    StandardizeTrimmed(text, lower);
    assert Strip(once) == once;
    LowerTwice(stripped, lower);
  }

  /** Lower-casing twice is lower-casing once. */
  lemma LowerTwice(s: string, lower: char -> char)
    requires forall c {:trigger lower(lower(c))} :: lower(lower(c)) == lower(c)
    ensures LowerWith(LowerWith(s, lower), lower) == LowerWith(s, lower)
  {
  }

  // ---------------------------------------------------------------------------
  // correct_slang_words
  // ---------------------------------------------------------------------------

  /** `CORRECTION_DICT.get(w, w)`: the canonical form of a slang token, or the
      token itself. */
  function Lookup(w: string): string {
    if w in CorrectionDict then CorrectionDict[w] else w
  }

  /** The comprehension `[CORRECTION_DICT.get(w, w) for w in words]`. */
  function CorrectWords(ws: seq<string>): (r: seq<string>)
    ensures |r| == |ws|
    ensures forall i :: 0 <= i < |ws| ==> r[i] == Lookup(ws[i])
  {
    seq(|ws|, i requires 0 <= i < |ws| => Lookup(ws[i]))
  }

  /** `" ".join(CORRECTION_DICT.get(w, w) for w in text.split())`. */
  function CorrectSlangWords(text: string): string {
    Join(CorrectWords(Split(text)))
  }

  /** A string that correction leaves alone: a non-empty tidy phrase none of whose
      words is a key. Every corrected token is one. */
  ghost predicate FixedPhrase(v: string) {
    && v != ""
    && Tidy(v)
    && forall w :: w in Split(v) ==> w !in CorrectionDict
  }

  /** Each corrected token is a fixed phrase: table values by the shape of the
      table, unmapped tokens because they are single words that are not keys. */
  lemma CorrectedTokensAreFixed(ws: seq<string>)
    requires forall i :: 0 <= i < |ws| ==> IsWord(ws[i])
    ensures forall i :: 0 <= i < |ws| ==> FixedPhrase(CorrectWords(ws)[i])
  {
    ValuesAreFixedPhrases();
    forall i | 0 <= i < |ws| ensures FixedPhrase(CorrectWords(ws)[i]) {
      if ws[i] !in CorrectionDict {
        WordIsTidy(ws[i]);
        WordSplitsToItself(ws[i]);
      }
    }
  }

  /** Correction of a fixed phrase is the phrase itself. */
  lemma FixedPhraseIsFixed(v: string)
    requires FixedPhrase(v)
    ensures CorrectSlangWords(v) == v
  {
    var ws := Split(v);
    assert CorrectWords(ws) == ws;
    TidyIffJoinSplit(v);
  }

  /** Correction distributes over a space between two non-blank texts. */
  lemma CorrectAroundSpace(a: string, b: string)
    requires Split(a) != [] && Split(b) != []
    ensures CorrectSlangWords(a + " " + b) == CorrectSlangWords(a) + " " + CorrectSlangWords(b)
  {
    SplitAroundSpace(a, ' ', b);
    CorrectWordsAppend(Split(a), Split(b));
    JoinAppend(CorrectWords(Split(a)), CorrectWords(Split(b)));
  }

  /** Correcting two token lists one after the other is correcting their
      concatenation. */
  lemma CorrectWordsAppend(xs: seq<string>, ys: seq<string>)
    ensures CorrectWords(xs + ys) == CorrectWords(xs) + CorrectWords(ys)
  {
    assert forall i :: 0 <= i < |xs + ys| ==> (xs + ys)[i] == if i < |xs| then xs[i] else ys[i - |xs|];
  }

  /** A join of fixed phrases has at least one token. */
  lemma FixedJoinHasTokens(vs: seq<string>)
    requires |vs| > 0
    requires forall i :: 0 <= i < |vs| ==> FixedPhrase(vs[i])
    ensures Split(Join(vs)) != []
  {
    JoinLength(vs);
    var s := Join(vs);
    assert s[0] == vs[0][0];
    SplitEmptyIffBlank(s);
  }

  /** Correcting the space-join of fixed phrases gives back that join. */
  lemma {:induction false} CorrectJoinOfFixed(vs: seq<string>)
    requires forall i :: 0 <= i < |vs| ==> FixedPhrase(vs[i])
    ensures CorrectSlangWords(Join(vs)) == Join(vs)
  {
    if |vs| == 0 {
      assert Split("") == [];
    } else if |vs| == 1 {
      FixedPhraseIsFixed(vs[0]);
    } else {
      CorrectJoinOfFixed(vs[1..]);
      FixedPhraseIsFixed(vs[0]);
      FixedJoinHasTokens(vs[..1]);
      FixedJoinHasTokens(vs[1..]);
      CorrectAroundSpace(vs[0], Join(vs[1..]));
    }
  }

  /** Correction is idempotent: no word of a replacement is itself a key. */
  lemma CorrectIdempotent(text: string)
    ensures CorrectSlangWords(CorrectSlangWords(text)) == CorrectSlangWords(text)
  {
    var ws := Split(text);
    CorrectedTokensAreFixed(ws);
    CorrectJoinOfFixed(CorrectWords(ws));
  }

  /** The corrected text has no leading, trailing or doubled spaces. */
  lemma CorrectIsTidy(text: string)
    ensures Tidy(CorrectSlangWords(text))
  {
    var ws := Split(text);
    CorrectedTokensAreFixed(ws);
    JoinTidy(CorrectWords(ws));
  }

  /** Correction yields "" exactly for blank input. */
  lemma CorrectEmptyIffBlank(text: string)
    ensures CorrectSlangWords(text) == "" <==> Blank(text)
  {
    var ws := Split(text);
    SplitEmptyIffBlank(text);
    if ws != [] {
      CorrectedTokensAreFixed(ws);
      JoinLength(CorrectWords(ws));
    }
  }

  /** Without slang tokens, correction only collapses whitespace: it returns the
      tokens of `text` joined by single spaces, and a tidy text unchanged. */
  lemma CorrectWithoutSlang(text: string)
    requires forall w :: w in Split(text) ==> w !in CorrectionDict
    ensures CorrectSlangWords(text) == Join(Split(text))
    ensures Tidy(text) ==> CorrectSlangWords(text) == text
  {
    assert CorrectWords(Split(text)) == Split(text);
    TidyIffJoinSplit(text);
  }

  /** On words joined by single spaces, correction looks each word up. */
  lemma CorrectJoinedWords(ws: seq<string>)
    requires forall i :: 0 <= i < |ws| ==> IsWord(ws[i])
    ensures CorrectSlangWords(Join(ws)) == Join(CorrectWords(ws))
  {
    SplitJoin(ws);
  }

  /** A word outside the key listing is left as it is. */
  lemma UnlistedWordKept(w: string)
    requires w !in Keys
    ensures Lookup(w) == w
  {
    KeysListed();
  }

  /** Step one of the example below: the text splits into its two words. */
  lemma ExampleSplit()
    ensures CorrectSlangWords("k khoe") == Join(CorrectWords(["k", "khoe"]))
  {
    assert Join(["k", "khoe"]) == "k khoe";
    CorrectJoinedWords(["k", "khoe"]);
  }

  /** Step two of the example below: "k" is a key, "khoe" is not. */
  lemma ExampleLookups()
    ensures Join(CorrectWords(["k", "khoe"])) == "không khoe"
  {
    UnlistedWordKept("khoe");
    assert CorrectWords(["k", "khoe"]) == ["không", "khoe"];
  }

  /** Only whole tokens are replaced: "k" is, the "k" that starts "khoe" is not. */
  lemma CorrectExample()
    ensures CorrectSlangWords("k khoe") == "không khoe"
  {
    ExampleSplit();
    ExampleLookups();
  }

  /** A two-word value makes correction add a token. */
  lemma CorrectionCanAddTokens()
    ensures Split("bt") == ["bt"]
    ensures Split(CorrectSlangWords("bt")) == ["bình", "thường"]
  {
    WordSplitsToItself("bt");
    CorrectJoinedWords(["bt"]);
    assert CorrectSlangWords("bt") == Join(["bình", "thường"]);
    SplitJoin(["bình", "thường"]);
  }

  // ---------------------------------------------------------------------------
  // tokenize_text
  // ---------------------------------------------------------------------------

  /** Every segment with its spaces replaced by underscores. */
  function Underscored(segments: seq<string>): (ps: seq<string>)
    ensures |ps| == |segments|
    ensures forall i :: 0 <= i < |ps| ==> ps[i] == ReplaceSpaces(segments[i])
  {
    seq(|segments|, i requires 0 <= i < |segments| => ReplaceSpaces(segments[i]))
  }

  /** The text `tokenize_text` returns for the segments `word_tokenize` produced. */
  function TokenizedText(segments: seq<string>): string {
    Join(Underscored(segments))
  }

  /** `tokenize_text`: segment, replace the spaces inside each segment by
      underscores, and join the segments with single spaces. */
  method TokenizeText(text: string, wordTokenize: string -> seq<string>) returns (finalText: string)
    ensures finalText == TokenizedText(wordTokenize(text))
  {
    var tokenizedList := wordTokenize(text);
    var processedTokens: seq<string> := [];
    for i := 0 to |tokenizedList|
      invariant processedTokens == Underscored(tokenizedList[..i])
    {
      processedTokens := processedTokens + [ReplaceSpaces(tokenizedList[i])];
    }
    assert tokenizedList[..|tokenizedList|] == tokenizedList;
    finalText := Join(processedTokens);
  }

  /** The pieces of the tokenized text are recovered by `split(" ")`: piece i is
      segment i with its spaces turned into underscores, and holds no space. */
  lemma TokenizedPieces(segments: seq<string>)
    requires |segments| > 0
    ensures SplitOnSpace(TokenizedText(segments)) == Underscored(segments)
    ensures forall i :: 0 <= i < |segments| ==> NoSpaceChar(Underscored(segments)[i])
  {
    SplitOnSpaceJoin(Underscored(segments));
  }

  /** Replacing spaces keeps every length. */
  lemma {:induction false} UnderscoredLength(segments: seq<string>)
    ensures TotalLength(Underscored(segments)) == TotalLength(segments)
  {
    if |segments| > 0 {
      UnderscoredLength(segments[1..]);
      assert Underscored(segments)[1..] == Underscored(segments[1..]);
    }
  }

  /** The tokenized text is as long as all segments together plus one separator
      between each two of them, and empty when there are no segments. */
  lemma TokenizedLength(segments: seq<string>)
    ensures |TokenizedText(segments)| ==
      if |segments| == 0 then 0 else TotalLength(segments) + |segments| - 1
  {
    if |segments| > 0 {
      JoinLength(Underscored(segments));
      UnderscoredLength(segments);
    }
  }
}
