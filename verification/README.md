# Reflective agent: a Dafny model

The reflective agent (`reflective_agent.py`) asks a text-generation service
for a response and then asks it again to improve that response. This project
models its deterministic core and proves properties of it:

- **Keyword extraction** (`extract_keywords`, module `Keywords`): whitespace
  tokens, stripped of punctuation, lower-cased, kept when longer than three
  characters and not a stop word. It is a loop that adds to a set
  (`ExtractKeywords`), proved equal to the set comprehension `KeywordSet`.
- **The two validators** (module `Scores`):
  - `validate_context_maintenance` (`ContextScore`) scores relevance as 1.0
    when the prompt has no keywords, otherwise `min(1.5·|shared|/|prompt|, 1.0)`;
  - `validate_content_quality` (`ContentScore`) gives 0.0 to short text,
    otherwise 1.0 less 0.3 per meta-commentary phrase found, floored at 0.0.
- **The refinement controller** (`improved_multi_step_reflection`, module
  `Controller`): a bounded loop of rounds. Each round generates an
  improvement of the running response and scores it with both validators.
  When the candidate misses either threshold (0.7 relevance, 0.6 quality),
  the round asks once more with a stricter prompt. It then records the round
  and chains to the next one. The loop stops on the step budget, on the
  iteration ceiling or on the first failed call, and returns the round
  records with two run-level flags.
- **The unvalidated flows** (module `Reflection`): `reflect_and_improve`
  (generate, then critique), `compare_responses`, `multi_step_reflection`
  and `batch_reflect`.

The generation service is an **oracle**: a sequence `replies` of
`Option<string>`, consumed in call order, where `None` means the call raised
and a call past the end of the sequence fails (module `Oracle`). Every entry
point also returns the list of prompts it sent (`calls`), so properties can
speak about what was asked as well as what came back. A prompt is recorded by
its kind and the texts it embeds (`Plain`, `Critique`, `Refine`, `Recover`,
`Compare`). The API key read from the environment is an `Option<string>`
parameter. A missing or empty key is the `MissingApiKey` error, raised
before any call.

The controller's rounds (`Round`, `RunFrom`, `RefineOnce`, `RefinementLoop`)
are written for any scoring function `judge: string -> Validation`. The
controller itself (`Refinement`, `ImprovedMultiStepReflection`) runs them
with `Validator(prompt)`, which applies both validators. So every lemma stated
for an arbitrary `judge` (`RunStops`, `RunCalls`, …) holds for the controller
in particular. `RefinementChains` and `RefinementWithAcceptableReplies` state
the controller's own facts in terms of the two scores.

Text handling is ASCII: `Text` gives Python's `str.isspace`, `lower()`,
`strip(chars)`, `split()` and substring `in` over `seq<char>`. Scores are
exact reals, and each threshold decision is proved equivalent to an integer
fact (`ContextThreshold`, `ContentScore`'s ensures, `AcceptableMeans`).

Files: `text.dfy`, `keywords.dfy`, `scores.dfy`, `oracle.dfy`,
`reflection.dfy`, `controller.dfy`; verify them all together with
`dafny verify *.dfy`.

Two behaviours of the code are worth stating outright:

- A `max_iterations` of zero or less still runs one round, because the
  ceiling is checked only after a round (`PlannedRounds`, `RunStops`).
- A response containing "thank you for the feedback" also matches
  "feedback", so it scores at most 0.4 and fails the quality threshold
  (`ThanksAlsoMatchesFeedback`).

## Model

| member | source | states |
|---|---|---|
| Text.Lower | reflective_agent.py:241 | ASCII `lower()`: same length, each character lower-cased, and no upper-case letter in the result |
| Text.LowerIdempotent | reflective_agent.py:191 | lower-casing twice is lower-casing once, so the second `lower()` inside `extract_keywords` changes nothing |
| Text.Strip | reflective_agent.py:241 | `strip(chars)` returns an infix of the input with no stripped character at either end, and only stripped characters before and after it |
| Text.Split | reflective_agent.py:237 | `split()` returns words, each non-empty and free of whitespace |
| Text.SplitJoinWords | reflective_agent.py:237 | splitting the words joined by single spaces gives the words back |
| Text.SplitWordsOccur | reflective_agent.py:237 | every word `split()` returns occurs in the text |
| Text.SplitConcatSpace | reflective_agent.py:237 | splitting `a + [c] + b`, for any whitespace character `c` (space, tab, newline, …), gives the words of `a` followed by the words of `b`; with `SplitJoinWords` on a single word this determines `split()` on every text |
| Text.StripLower | reflective_agent.py:241 | for a set of characters that lower-casing neither adds nor removes, `strip` then `lower()` equals `lower()` then `strip` |
| Text.SplitLower | reflective_agent.py:191-192 | `split()` of the lower-cased text gives the same number of words, each the lower-cased word of the original |
| Text.ContainsTransitive | reflective_agent.py:224 | a substring of a substring of a text is a substring of the text |
| Keywords.ExtractKeywords | reflective_agent.py:232-245 | the loop's result is exactly the set of normalised words that pass the length and stop-word filter |
| Keywords.KeywordShape | reflective_agent.py:235-245 | every keyword is longer than 3 characters, is not a stop word, has no punctuation at either end, has no upper-case letter, and is the normalised form of a word that occurs in the text |
| Keywords.KeywordComplete | reflective_agent.py:240-243 | every word whose normalised form passes the filter contributes that form |
| Keywords.NormalizeLower | reflective_agent.py:241 | normalising an already lower-cased word gives the same result as normalising the word |
| Keywords.KeywordsIgnoreCase | reflective_agent.py:191-192 | extracting from the lower-cased text gives the same keywords as extracting from the text, so the `lower()` the validators apply first changes nothing |
| Keywords.BlankTextHasNoKeywords | reflective_agent.py:237-245 | empty or all-whitespace text has no keywords |
| Keywords.RepeatedTextSameKeywords | reflective_agent.py:238-243 | repeated words collapse: a text written twice has the same keywords as the text |
| Scores.SharedKeywords | reflective_agent.py:198 | the shared keywords are a subset of the prompt's keywords |
| Scores.ContextScore | reflective_agent.py:191-201 | the relevance score lies in [0, 1] and is 1.0 when the prompt has no keywords |
| Scores.ContextFullMarks | reflective_agent.py:194-201 | the score is 1.0 exactly when the prompt has no keywords or at least two thirds of them are shared |
| Scores.ContextThreshold | reflective_agent.py:199-201 | the score is at least 0.7 exactly when the prompt has no keywords or 15·shared ≥ 7·prompt keywords |
| Scores.MatchCount | reflective_agent.py:224 | the number of phrases found never exceeds the number of phrases |
| Scores.MatchCountIsDistinctHits | reflective_agent.py:217-224 | for a list without repeats, the count equals the number of distinct phrases the text contains |
| Scores.PhraseHitsIsDistinct | reflective_agent.py:216-224 | the number of hits is the number of distinct listed phrases found in the lower-cased response |
| Scores.OffTopicPhrasesDistinct | reflective_agent.py:217-221 | the eight listed phrases are pairwise different |
| Scores.ContentScore | reflective_agent.py:213-230 | the quality score lies in [0, 1], is 0.0 for empty text or text shorter than 50 once stripped, and is at least 0.6 exactly when the text is long enough and contains at most one listed phrase |
| Scores.ContentScoreByHits | reflective_agent.py:227-230 | for long enough text, 0, 1, 2, 3 and 4 or more phrases give 1.0, 0.7, 0.4, 0.1 and 0.0 |
| Scores.ThanksAlsoMatchesFeedback | reflective_agent.py:217-224 | any text containing "thank you for the feedback", however short, also matches "feedback", so it scores at most 0.4, below the 0.6 threshold |
| Scores.MinorSuggestionsAlsoMatchesSuggestion | reflective_agent.py:217-224 | any text containing "minor suggestions", however short, also matches "suggestion", so it scores at most 0.4 |
| Controller.AcceptableMeans | reflective_agent.py:119 | a candidate passes both thresholds exactly when it shares at least 7/15 of the prompt keywords (or the prompt has none), is long enough, and contains at most one listed phrase |
| Controller.RoundShape | reflective_agent.py:104-156 | a round sends one improvement prompt, and a recovery prompt for the same response exactly when the first candidate came back and failed a threshold; it completes when its calls succeed and then records the last candidate with that candidate's scores; a failed round's last call failed |
| Controller.RefineOnce | reflective_agent.py:104-156 | the method's step record and prompts are those of `Round` |
| Controller.RefinementLoop | reflective_agent.py:65-177 | the loop, with its two `break`s and the abort on a failed call, yields the record and prompts of `RunLoop` |
| Controller.ImprovedMultiStepReflection | reflective_agent.py:44-177 | the result and prompts are those of `Refinement`; it fails, with `MissingApiKey` and no call, exactly when the key is missing |
| Controller.ChainedSnoc | reflective_agent.py:143-155 | appending the next round's record keeps the rounds numbered, scored and chained |
| Controller.RunFromChained | reflective_agent.py:77-170 | every run keeps its rounds numbered, scored and chained |
| Controller.RefinementChains | reflective_agent.py:143-175 | rounds are numbered 1…n and their count is `total_iterations`; the first starts from the prompt and each later one from the previous output; the final response is the last output, or the prompt; lengths and both scores belong to each round's own texts; `validation_passed` holds exactly when the output is acceptable; `context_maintained` is the conjunction over the rounds and `validation_passed` equals it |
| Controller.RunFromStops | reflective_agent.py:77-170 | from any reachable loop state, the run respects both bounds, sends one or two prompts per round, and ends early only on a failed call |
| Controller.RunFromFailureEndsEarly | reflective_agent.py:104-170 | from any reachable loop state, a run whose last call failed recorded fewer rounds than planned |
| Controller.RunFromAbort | reflective_agent.py:104-170 | from a state whose calls all succeeded, every call of the run except possibly the last succeeds: a failed call is the last one sent |
| Controller.RunStops | reflective_agent.py:77-170 | the number of rounds is at most the planned number, at most `steps` and at most `max(1, max_iterations)`; between one and two prompts go out per round, plus at most two for a failed round; no prompt goes out exactly when `steps ≤ 0`; fewer rounds than planned exactly when the last call failed; every call before the last succeeded, so a failed call ends the run with nothing sent after it and its round unrecorded |
| Controller.RunCompletes | reflective_agent.py:77-165 | when every call succeeds, the run completes exactly `min(steps, max(1, max_iterations))` rounds (none when `steps ≤ 0`) |
| Controller.RunFirstCallFails | reflective_agent.py:167-175 | when the first call fails, the run records nothing and returns the prompt itself, with both flags set and one prompt sent |
| Controller.CallsSnoc | reflective_agent.py:104-136 | appending one round's prompts keeps the prompt log well ordered |
| Controller.RunFromCalls | reflective_agent.py:77-170 | every run keeps its prompt log well ordered |
| Controller.RunCalls | reflective_agent.py:104-136 | every prompt sent is an improvement or recovery prompt about the original prompt; the first is an improvement prompt; a recovery prompt directly follows an improvement prompt for the same response whose reply came back and was rejected, and every such rejected improvement prompt is directly followed by that recovery prompt |
| Controller.RunFromAnswered | reflective_agent.py:104-155 | from a state whose rounds are all backed by the log, every round the run records is too: some improvement prompt for the round's input came back, and the round's output is that reply when it passed, otherwise the reply to the recovery prompt sent right after it |
| Controller.RunAnswered | reflective_agent.py:104-155 | for any scoring function, every recorded round of a run is backed by the service in that way, so a round records the final, post-recovery candidate |
| Controller.RefinementAnswered | reflective_agent.py:104-155 | the same for the controller's own scoring: a round's output is the improvement reply when it is acceptable, otherwise the recovery reply |
| Controller.RunFromAccepting | reflective_agent.py:143-156 | with a service whose every reply is accepted, every recorded round passes |
| Controller.RunWithAcceptingService | reflective_agent.py:119-175 | with a service whose every reply is accepted, no recovery prompt is sent and both flags are set |
| Controller.RefinementWithAcceptableReplies | reflective_agent.py:119-175 | the same for the controller's own scores: when every reply passes both thresholds, no recovery prompt is sent and both flags are set |
| Reflection.ReflectAndImprove | reflective_agent.py:8-42 | with no key: `MissingApiKey` and no call; otherwise the prompt, then a critique of the first reply; success exactly when both calls succeed, returning the two replies; a failed call gives `GenerationFailed` |
| Reflection.CompareResponses | reflective_agent.py:266-287 | reflects on a comparison prompt that embeds both responses; success exactly when the key is present and both calls succeed |
| Reflection.MultiStepReflection | reflective_agent.py:259-264 | the loop's result and prompts are those of `MultiStepFrom` over `max(steps, 0)` cycles |
| Reflection.MultiStepNoRounds | reflective_agent.py:259-264 | with `steps ≤ 0` the prompt comes back unchanged, no call is made and the key is not checked |
| Reflection.MultiStepNeedsKey | reflective_agent.py:259-262 | with at least one cycle and no key, the run fails with `MissingApiKey` before any call |
| Reflection.MultiStepChains | reflective_agent.py:259-264 | when every call succeeds, the run yields the last improved text (the prompt itself after no cycle) and sends exactly the prompts of `CyclePrompts`: each cycle's text, then a critique of its reply |
| Reflection.CyclePromptsAt | reflective_agent.py:259-264 | in those prompts, cycle j sends at position 2j the text it starts from (the prompt, then the previous cycle's improved text) and at 2j + 1 a critique of the reply to it |
| Reflection.MultiStepPropagatesFailure | reflective_agent.py:259-264 | a failed call in any cycle fails the whole run |
| Reflection.BatchFailureSticks | reflective_agent.py:300-309 | once a prompt fails, the batch stays failed and sends nothing more |
| Reflection.BatchReflect | reflective_agent.py:300-309 | the loop's result and prompts are those of `BatchPrefix` over all prompts |
| Reflection.BatchOutcome | reflective_agent.py:289-309 | the batch succeeds exactly when it is empty, or the key is present and every call succeeds; it then holds one record per prompt, in input order, with that prompt's two replies; otherwise it reports the missing key or the failed call |

## Left out

- The GenAI client and its network calls are the `replies` oracle. The
  `model` parameter only selects the service's model, so it is not modelled.
- `load_dotenv` and `os.getenv` are the `apiKey` parameter.
- All `print` output, `main`, the demo scripts and the unittest files are
  left out.
- The wording of the prompt templates is left out: a prompt is modelled by
  its kind and the texts it embeds.
- Unicode: whitespace, `lower()` and `strip` cover ASCII only.
- IEEE-754 floats: scores are exact reals, so the exact values can differ
  from the program's doubles: with three phrase hits the double is
  0.10000000000000009 where `ContentScoreByHits` gives 0.1. The two threshold
  decisions are taken on the integer facts `ContextThreshold` and
  `ContentScore` state. For quality, the doubles for 0 to 4+ hits (1.0, 0.7,
  0.4, 0.10000000000000009, 0.0) lie on the same side of 0.6 as the exact
  values. For relevance, `min(c/o·1.5, 1.0) < 0.7` sits exactly on the
  boundary when 15·c = 7·o (7/15·1.5 is 0.7 in double arithmetic too); that
  the double comparison agrees with the exact one for every keyword count is
  not proved here.
- The default arguments `steps=3, max_iterations=5` of
  `improved_multi_step_reflection` (reflective_agent.py:44) and `steps=3` of
  `multi_step_reflection` (reflective_agent.py:247) are not modelled: every
  entry point takes its counts as explicit parameters.
- Exception types: any exception from a call is a failed call. A reply is
  always a string; the service returning no text is not modelled.
- Controller.RefinementLoop: the `results` dictionary, which the source
  updates during the loop, is built once at the end. Nothing reads it before
  the end, so the returned record is the same.
