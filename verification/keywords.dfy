/** Keyword extraction (`extract_keywords`): the content-bearing terms of a
    text, as a set of normalised words. */
module Keywords {
  import opened Text

  /** The characters `extract_keywords` strips from both ends of every word. */
  const Punctuation: set<char> :=
    {'.', ',', '!', '?', ';', ':', '(', ')', '[', ']', '{', '}', '"', '\''}

  /** Articles, conjunctions, auxiliaries and pronouns that never count as keywords. */
  const StopWords: set<string> := {
    "the", "a", "an", "and", "or", "but", "in", "on", "at", "to", "for", "of",
    "with", "by", "is", "are", "was", "were", "be", "been", "have", "has", "had",
    "do", "does", "did", "will", "would", "could", "should", "may", "might", "can",
    "this", "that", "these", "those", "i", "you", "he", "she", "it", "we", "they",
    "me", "him", "her", "us", "them"
  }

  /** A word with its surrounding punctuation removed, then lower-cased. */
  function Normalize(word: string): string {
    Lower(Strip(word, Punctuation))
  }

  /** The filter a normalised word must pass: longer than three characters
      and not a stop word. */
  predicate IsKeyword(term: string) {
    |term| > 3 && term !in StopWords
  }

  /** The keywords of `text`: the normalised form of every whitespace-separated
      word whose normalised form passes the filter. */
  function KeywordSet(text: string): set<string> {
    set w | w in Split(text) && IsKeyword(Normalize(w)) :: Normalize(w)
  }

  /** `extract_keywords`: one pass over the words of `text`, adding each
      qualifying normalised word to the set. */
  method ExtractKeywords(text: string) returns (keywords: set<string>)
    ensures keywords == KeywordSet(text)
  {
    var words := Split(text);
    keywords := {};
    for i := 0 to |words|
      invariant keywords == set w | w in words[..i] && IsKeyword(Normalize(w)) :: Normalize(w)
    {
      var word := Normalize(words[i]);
      assert words[..i + 1] == words[..i] + [words[i]];
      if IsKeyword(word) {
        keywords := keywords + {word};
      }
    }
    assert words[..|words|] == words;
  }

  /** Lower-casing leaves the punctuation characters alone. */
  lemma LowerKeepsPunctuation(c: char)
    ensures LowerChar(c) in Punctuation <==> c in Punctuation
  {
  }

  /** What every extracted keyword looks like: long enough, not a stop word,
      no punctuation at either end, no upper-case letter, and the normalised
      form of a word that occurs in the text. */
  lemma KeywordShape(text: string, k: string)
    requires k in KeywordSet(text)
    ensures |k| > 3 && k !in StopWords
    ensures k[0] !in Punctuation && k[|k| - 1] !in Punctuation
    ensures forall i :: 0 <= i < |k| ==> !IsUpper(k[i])
    ensures exists w :: w in Split(text) && IsWord(w) && Contains(text, w) && Normalize(w) == k
  {
    var w :| w in Split(text) && IsKeyword(Normalize(w)) && Normalize(w) == k;
    var stripped := Strip(w, Punctuation);
    assert k == Lower(stripped);
    LowerKeepsPunctuation(stripped[0]);
    LowerKeepsPunctuation(stripped[|stripped| - 1]);
    SplitWordsOccur(text);
    var j :| 0 <= j < |Split(text)| && Split(text)[j] == w;
    assert IsWord(w) && Contains(text, w);
  }

  /** Every word of the text whose normalised form passes the filter is extracted. */
  lemma KeywordComplete(text: string, w: string)
    requires w in Split(text) && IsKeyword(Normalize(w))
    ensures Normalize(w) in KeywordSet(text)
  {
  }

  /** An empty or blank text has no keywords. */
  lemma BlankTextHasNoKeywords(text: string)
    requires forall i :: 0 <= i < |text| ==> IsSpace(text[i])
    ensures KeywordSet(text) == {}
  {
    SplitBlank(text);
  }

  /** Duplicates collapse: a text and the same text written twice have the same keywords. */
  lemma {:induction false} RepeatedTextSameKeywords(text: string)
    ensures KeywordSet(text + " " + text) == KeywordSet(text)
  {
    SplitConcatSpace(text, ' ', text);
    assert text + " " + text == text + [' '] + text;
  }

  /** Normalising lower-cases, so normalising a lower-cased word changes nothing. */
  lemma NormalizeLower(w: string)
    ensures Normalize(Lower(w)) == Normalize(w)
  {
    forall c: char
      ensures LowerChar(c) in Punctuation <==> c in Punctuation
    {
      LowerKeepsPunctuation(c);
    }
    StripLower(w, Punctuation);
    LowerIdempotent(Strip(w, Punctuation));
  }

  /** Extraction ignores case: lower-casing the text first, as both validators
      do, yields the same keywords. */
  lemma KeywordsIgnoreCase(text: string)
    ensures KeywordSet(Lower(text)) == KeywordSet(text)
  {
    var words := Split(text);
    SplitLower(text);
    forall k | k in KeywordSet(Lower(text))
      ensures k in KeywordSet(text)
    {
      var w :| w in Split(Lower(text)) && IsKeyword(Normalize(w)) && Normalize(w) == k;
      var i :| 0 <= i < |Split(Lower(text))| && Split(Lower(text))[i] == w;
      NormalizeLower(words[i]);
      assert words[i] in words;
    }
    forall k | k in KeywordSet(text)
      ensures k in KeywordSet(Lower(text))
    {
      var w :| w in words && IsKeyword(Normalize(w)) && Normalize(w) == k;
      var i :| 0 <= i < |words| && words[i] == w;
      NormalizeLower(w);
      assert Split(Lower(text))[i] in Split(Lower(text));
    }
  }
}
