/** The configuration constants of the application and its slang table. */
module Constant {
  import opened PyStr

  /** File name of the SQLite database. */
  const DbName: string := "sentiment_data.db"

  /** Longest sentence, in characters, that the application accepts. */
  const MaxSentenceLength: nat := 50

  /** Informal, abbreviated or unaccented Vietnamese tokens and their canonical forms. */
  const CorrectionDict: map<string, string> := map[
    "buon" := "buồn",
    "chan" := "chán",
    "the" := "thế",
    "nhi" := "nhỉ",
    "nhieu" := "nhiều",
    "th" := "thôi",
    "toi" := "tôi",
    "ban" := "bạn",
    "hom" := "hôm",
    "rat" := "rất",
    "dk" := "được",
    "dc" := "được",
    "k" := "không",
    "ko" := "không",
    "hok" := "không",
    "bt" := "bình thường",
    "bth" := "bình thường",
    "vs" := "với",
    "mik" := "mình",
    "mn" := "mọi người",
    "j" := "gì",
    "hum" := "hôm",
    "hqa" := "hôm qua",
    "iu" := "yêu",
    "vk" := "vợ",
    "ck" := "chồng"
  ]

  // The table's keys, its distinct values and the words of those values,
  // listed once so that properties of the table can be proved entry by entry.

  ghost const Keys: set<string> := {
    "buon", "chan", "the", "nhi", "nhieu", "th", "toi", "ban", "hom",
    "rat", "dk", "dc", "k", "ko", "hok", "bt", "bth", "vs", "mik", "mn",
    "j", "hum", "hqa", "iu", "vk", "ck"
  }

  ghost const Phrases: set<string> := {
    "buồn", "chán", "thế", "nhỉ", "nhiều", "thôi", "tôi", "bạn", "hôm",
    "rất", "được", "không", "bình thường", "với", "mình", "mọi người",
    "gì", "hôm qua", "yêu", "vợ", "chồng"
  }

  ghost const PhraseWords: set<string> := {
    "buồn", "chán", "thế", "nhỉ", "nhiều", "thôi", "tôi", "bạn", "hôm",
    "rất", "được", "không", "bình", "thường", "với", "mình", "mọi",
    "người", "gì", "qua", "yêu", "vợ", "chồng"
  }

  /** A non-empty token of ASCII lower-case letters only. */
  predicate IsLowerAsciiWord(k: string) {
    |k| > 0 && forall i :: 0 <= i < |k| ==> 'a' <= k[i] <= 'z'
  }

  lemma KeysListed()
    ensures forall k :: k in CorrectionDict ==> k in Keys
  {
  }

  lemma ValuesListed()
    ensures forall k :: k in CorrectionDict ==> CorrectionDict[k] in Phrases
  {
  }

  lemma KeySetLower()
    ensures forall k :: k in Keys ==> IsLowerAsciiWord(k)
  {
  }

  /** ASCII letters are not whitespace. */
  lemma LowerAsciiIsWord(k: string)
    requires IsLowerAsciiWord(k)
    ensures IsWord(k)
  {
  }

  /** Every key is a non-empty lower-case token without whitespace, so it can
      match a token of `split()` applied to lower-cased text. */
  lemma KeysAreLowerCaseWords()
    ensures forall k :: k in CorrectionDict ==> IsLowerAsciiWord(k) && IsWord(k)
  {
    KeysListed();
    KeySetLower();
    forall k | k in CorrectionDict ensures IsWord(k) {
      LowerAsciiIsWord(k);
    }
  }

  /** Code point ranges that hold every character of the table's phrases:
      lower-case ASCII letters, Latin-1 Supplement to Latin Extended-B
      (U+00C0-U+024F, upper-case letters and the signs U+00D7 and U+00F7
      included) and Latin Extended Additional. What matters is that none of
      them holds a whitespace character. */
  predicate IsLetter(c: char) {
    'a' <= c <= 'z' || '\U{C0}' <= c <= '\U{24F}' || '\U{1E00}' <= c <= '\U{1EFF}'
  }

  /** A non-empty token of such letters. */
  predicate IsLetterWord(w: string) {
    |w| > 0 && forall k :: 0 <= k < |w| ==> IsLetter(w[k])
  }

  lemma LetterWordIsWord(w: string)
    requires IsLetterWord(w)
    ensures IsWord(w)
  {
  }

  lemma PhraseWordsAreLetterWords()
    ensures forall w :: w in PhraseWords ==> IsLetterWord(w)
  {
  }

  lemma PhraseWordsAreWords()
    ensures forall w :: w in PhraseWords ==> IsWord(w)
  {
    PhraseWordsAreLetterWords();
    forall w | w in PhraseWords ensures IsWord(w) {
      LetterWordIsWord(w);
    }
  }

  /** A one-word value is tidy and splits into itself. */
  lemma OneWordPhrase(v: string)
    requires v in PhraseWords
    ensures v != "" && Tidy(v) && Split(v) == [v]
  {
    PhraseWordsAreWords();
    WordIsTidy(v);
    WordSplitsToItself(v);
  }

  /** Two listed words joined by a space make a tidy phrase that splits into them. */
  lemma TwoWordPhrase(v: string, a: string, b: string)
    requires a in PhraseWords && b in PhraseWords && v == a + " " + b
    ensures v != "" && Tidy(v) && Split(v) == [a, b]
  {
    OneWordPhrase(a);
    OneWordPhrase(b);
    TidyGlue(a, b);
    SplitAroundSpace(a, ' ', b);
  }

  /** A distinct value is one listed word or one of the three two-word phrases. */
  lemma PhrasesAreWordsOrPairs()
    ensures forall v :: v in Phrases ==>
      v in PhraseWords || v == "bình thường" || v == "mọi người" || v == "hôm qua"
  {
  }

  /** Every distinct value is a non-empty tidy phrase built from the listed words. */
  lemma PhrasesAreTidy()
    ensures forall v :: v in Phrases ==>
      v != "" && Tidy(v) && forall w :: w in Split(v) ==> w in PhraseWords
  {
    PhrasesAreWordsOrPairs();
    forall v | v in Phrases
      ensures v != "" && Tidy(v) && forall w :: w in Split(v) ==> w in PhraseWords
    {
      if v in PhraseWords {
        OneWordPhrase(v);
      } else if v == "bình thường" {
        TwoWordPhrase(v, "bình", "thường");
      } else if v == "mọi người" {
        TwoWordPhrase(v, "mọi", "người");
      } else {
        TwoWordPhrase(v, "hôm", "qua");
      }
    }
  }

  lemma PhraseWordsAreNotListedKeys()
    ensures PhraseWords !! Keys
  {
  }

  lemma PhraseWordsAreNotKeys()
    ensures forall w :: w in PhraseWords ==> w !in CorrectionDict
  {
    KeysListed();
    PhraseWordsAreNotListedKeys();
  }

  /** Every value is a non-empty tidy phrase, and no word of any value is itself
      a key: correcting a corrected token changes nothing. */
  lemma ValuesAreFixedPhrases()
    ensures forall k :: k in CorrectionDict ==>
      && CorrectionDict[k] != ""
      && Tidy(CorrectionDict[k])
      && forall w :: w in Split(CorrectionDict[k]) ==> w !in CorrectionDict
  {
    ValuesListed();
    PhrasesAreTidy();
    PhraseWordsAreNotKeys();
  }

  /** The table is not injective: three spellings of "không" and two of "được". */
  lemma NotInjective()
    ensures CorrectionDict["k"] == CorrectionDict["ko"] == CorrectionDict["hok"] == "không"
    ensures CorrectionDict["dk"] == CorrectionDict["dc"] == "được"
    ensures "k" != "ko" && "ko" != "hok" && "k" != "hok" && "dk" != "dc"
  {
  }
}
