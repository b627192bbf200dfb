/** The two heuristic validators: topical relevance by keyword overlap
    (`validate_context_maintenance`) and content quality by length and
    meta-commentary phrases (`validate_content_quality`). Scores are exact reals. */
module Scores {
  import opened Text
  import opened Keywords

  function Min(x: real, y: real): real {
    if x <= y then x else y
  }

  function Max(x: real, y: real): real {
    if x >= y then x else y
  }

  // ---------------------------------------------------------------------------
  // Relevance

  /** The keywords of the original prompt, extracted from its lower-cased text. */
  function PromptKeywords(original: string): set<string> {
    KeywordSet(Lower(original))
  }

  /** The prompt keywords that the response also contains. */
  function SharedKeywords(original: string, response: string): (common: set<string>)
    ensures common <= PromptKeywords(original)
  {
    set k | k in PromptKeywords(original) && k in KeywordSet(Lower(response))
  }

  /** `validate_context_maintenance`: 1.0 when the prompt has no keywords,
      otherwise the shared fraction of its keywords boosted by 1.5 and capped
      at 1.0. Full marks once two thirds of the prompt keywords are shared. */
  function ContextScore(original: string, response: string): (score: real)
    ensures 0.0 <= score <= 1.0
    ensures PromptKeywords(original) == {} ==> score == 1.0
  {
    var orig := PromptKeywords(original);
    if orig == {} then 1.0
    else
      var common := SharedKeywords(original, response);
      SubsetCard(common, orig);
      var ratio := (|common| as real) / (|orig| as real);
      RatioFacts(|common|, |orig|);
      Min(ratio * 1.5, 1.0)
  }

  lemma SubsetCard<T>(a: set<T>, b: set<T>)
    requires a <= b
    ensures |a| <= |b|
  {
    assert b == a + (b - a);
  }

  /** The facts about `c / o` that the scores need. */
  lemma RatioFacts(c: nat, o: nat)
    requires 0 < o && c <= o
    ensures 0.0 <= (c as real) / (o as real) <= 1.0
    ensures (c as real) / (o as real) * 1.5 >= 1.0 <==> 3 * c >= 2 * o
    ensures (c as real) / (o as real) * 1.5 >= 0.7 <==> 15 * c >= 7 * o
  {
    var cr, or := c as real, o as real;
    var r := cr / or;
    assert r * or == cr;
    assert 0.0 <= cr <= or;
    ScaleComparison(r, 0.0, or);
    assert 0.0 * or == 0.0;
    RatioAtMostOne(r, cr, or);
    BoostedAtLeast(r, cr, or, 1.0);
    BoostedAtLeast(r, cr, or, 0.7);
  }

  /** Multiplying both sides by a positive number keeps a comparison. */
  lemma ScaleComparison(x: real, y: real, z: real)
    requires z > 0.0
    ensures x >= y <==> x * z >= y * z
  {
  }

  lemma RatioAtMostOne(r: real, cr: real, or: real)
    requires or > 0.0 && r * or == cr && cr <= or
    ensures r <= 1.0
  {
    ScaleComparison(1.0, r, or);
  }

  /** For a ratio `r == cr / or`, the boosted ratio reaches `t` exactly when
      `1.5 * cr` reaches `t * or`. */
  lemma BoostedAtLeast(r: real, cr: real, or: real, t: real)
    requires or > 0.0 && r * or == cr
    ensures r * 1.5 >= t <==> cr * 1.5 >= t * or
  {
    ScaleComparison(r * 1.5, t, or);
    assert (r * 1.5) * or == (r * or) * 1.5;
  }

  /** Full marks exactly when the prompt has no keywords or at least two
      thirds of them are shared. */
  lemma ContextFullMarks(original: string, response: string)
    ensures ContextScore(original, response) == 1.0 <==>
              (PromptKeywords(original) == {} ||
               3 * |SharedKeywords(original, response)| >= 2 * |PromptKeywords(original)|)
  {
    var orig := PromptKeywords(original);
    if orig != {} {
      var common := SharedKeywords(original, response);
      SubsetCard(common, orig);
      RatioFacts(|common|, |orig|);
    }
  }

  /** The relevance threshold of the refinement loop as a fact about keyword
      counts: a score of at least 0.7 means no prompt keywords, or at least
      7/15 of them shared. */
  lemma ContextThreshold(original: string, response: string)
    ensures ContextScore(original, response) >= 0.7 <==>
              (PromptKeywords(original) == {} ||
               15 * |SharedKeywords(original, response)| >= 7 * |PromptKeywords(original)|)
  {
    var orig := PromptKeywords(original);
    if orig != {} {
      var common := SharedKeywords(original, response);
      SubsetCard(common, orig);
      RatioFacts(|common|, |orig|);
    }
  }

  // ---------------------------------------------------------------------------
  // Quality

  /** The meta-commentary phrases, in the order the source lists them. */
  const OffTopicPhrases: seq<string> := [
    "feedback", "suggestion", "improve the document", "revise the",
    "thank you for the feedback", "this response is excellent",
    "minor suggestions", "why this revised response"
  ]

  /** How many entries of `phrases` occur in `text`, each counted once. */
  function MatchCount(phrases: seq<string>, text: string): (n: nat)
    ensures n <= |phrases|
    decreases |phrases|
  {
    if phrases == [] then 0
    else (if Contains(text, phrases[0]) then 1 else 0) + MatchCount(phrases[1..], text)
  }

  /** The number of listed phrases the lower-cased response contains. */
  function PhraseHits(response: string): nat {
    MatchCount(OffTopicPhrases, Lower(response))
  }

  /** Long enough to be judged: non-empty, and at least 50 characters once
      surrounding whitespace is stripped. */
  predicate Substantial(response: string) {
    response != [] && |Strip(response, Whitespace)| >= 50
  }

  /** `validate_content_quality`: 0.0 for empty or short text, otherwise 1.0
      less 0.3 per meta-commentary phrase found, never below 0.0. */
  function ContentScore(response: string): (score: real)
    ensures 0.0 <= score <= 1.0
    ensures !Substantial(response) ==> score == 0.0
    ensures score >= 0.6 <==> Substantial(response) && PhraseHits(response) <= 1
  {
    if response == [] || |Strip(response, Whitespace)| < 50 then 0.0
    else
      var count := PhraseHits(response);
      if count > 0 then Max(0.0, 1.0 - (count as real) * 0.3)
      else 1.0
  }

  /** The exact score for each number of phrase matches. */
  lemma ContentScoreByHits(response: string)
    requires Substantial(response)
    ensures PhraseHits(response) == 0 ==> ContentScore(response) == 1.0
    ensures PhraseHits(response) == 1 ==> ContentScore(response) == 0.7
    ensures PhraseHits(response) == 2 ==> ContentScore(response) == 0.4
    ensures PhraseHits(response) == 3 ==> ContentScore(response) == 0.1
    ensures PhraseHits(response) >= 4 ==> ContentScore(response) == 0.0
  {
  }

  predicate Distinct(phrases: seq<string>) {
    forall i, j :: 0 <= i < j < |phrases| ==> phrases[i] != phrases[j]
  }

  lemma OffTopicPhrasesDistinct()
    ensures Distinct(OffTopicPhrases)
  {
  }

  /** Counting list entries and counting distinct phrases found agree when
      the list has no repeats. */
  lemma {:induction false} MatchCountIsDistinctHits(phrases: seq<string>, text: string)
    requires Distinct(phrases)
    ensures MatchCount(phrases, text) == |set p | p in phrases && Contains(text, p)|
    decreases |phrases|
  {
    var found := set p | p in phrases && Contains(text, p);
    if phrases == [] {
      assert found == {};
    } else {
      var rest := set p | p in phrases[1..] && Contains(text, p);
      MatchCountIsDistinctHits(phrases[1..], text);
      assert phrases[0] !in phrases[1..];
      if Contains(text, phrases[0]) {
        assert found == {phrases[0]} + rest;
      } else {
        assert found == rest;
      }
    }
  }

  /** The quality penalty counts each listed phrase found once. */
  lemma PhraseHitsIsDistinct(response: string)
    ensures PhraseHits(response) == |set p | p in OffTopicPhrases && Contains(Lower(response), p)|
  {
    OffTopicPhrasesDistinct();
    MatchCountIsDistinctHits(OffTopicPhrases, Lower(response));
  }

  lemma {:induction false} MatchCountAtLeastOne(phrases: seq<string>, text: string, i: nat)
    requires i < |phrases| && Contains(text, phrases[i])
    ensures MatchCount(phrases, text) >= 1
    decreases |phrases|
  {
    if i > 0 {
      MatchCountAtLeastOne(phrases[1..], text, i - 1);
    }
  }

  lemma {:induction false} MatchCountAtLeastTwo(phrases: seq<string>, text: string, i: nat, j: nat)
    requires i < j < |phrases|
    requires Contains(text, phrases[i]) && Contains(text, phrases[j])
    ensures MatchCount(phrases, text) >= 2
    decreases |phrases|
  {
    if i > 0 {
      MatchCountAtLeastTwo(phrases[1..], text, i - 1, j - 1);
    } else {
      MatchCountAtLeastOne(phrases[1..], text, j - 1);
    }
  }

  /** Phrases are counted independently: a response thanking for the feedback
      also matches "feedback", so it scores at most 0.4 (0.0 when it is too
      short to be judged) and fails the 0.6 bar. */
  lemma ThanksAlsoMatchesFeedback(response: string)
    requires Contains(Lower(response), "thank you for the feedback")
    ensures PhraseHits(response) >= 2
    ensures ContentScore(response) <= 0.4 < 0.6
  {
    ContainsAt("thank you for the feedback", "feedback", 18);
    ContainsTransitive(Lower(response), "thank you for the feedback", "feedback");
    MatchCountAtLeastTwo(OffTopicPhrases, Lower(response), 0, 4);
  }

  /** Likewise "minor suggestions" also matches "suggestion". */
  lemma MinorSuggestionsAlsoMatchesSuggestion(response: string)
    requires Contains(Lower(response), "minor suggestions")
    ensures PhraseHits(response) >= 2
    ensures ContentScore(response) <= 0.4 < 0.6
  {
    ContainsAt("minor suggestions", "suggestion", 6);
    ContainsTransitive(Lower(response), "minor suggestions", "suggestion");
    MatchCountAtLeastTwo(OffTopicPhrases, Lower(response), 1, 6);
  }
}
