/** The refinement controller (`improved_multi_step_reflection`): a bounded
    sequence of rounds, each generating an improvement of the running
    response, scoring it, retrying once with a stricter prompt when it fails
    the thresholds, and recording the round; it stops on the step budget, on
    the iteration ceiling, or on the first failed call. */
module Controller {
  import opened Oracle
  import opened Scores

  /** One completed round. */
  datatype StepResult = StepResult(
    stepNumber: nat,
    inputLength: nat,
    outputLength: nat,
    contextScore: real,
    contentScore: real,
    inputContent: string,
    outputContent: string,
    validationPassed: bool)

  /** The `results` record the controller returns. */
  datatype RefinementRun = RefinementRun(
    originalPrompt: string,
    steps: seq<StepResult>,
    finalResponse: string,
    contextMaintained: bool,
    validationPassed: bool,
    totalIterations: nat)

  /** The two validator scores of a candidate. */
  datatype Validation = Validation(context: real, content: real)

  /** The thresholds a candidate must meet to be accepted without recovery:
      relevance at least 0.7 and quality at least 0.6. */
  predicate Passes(v: Validation) {
    v.context >= 0.7 && v.content >= 0.6
  }

  /** How the controller scores a candidate for `prompt`: both validators.
      The loop below is written for any scoring function `judge`, and the
      controller runs it with this one. */
  function Validator(prompt: string): string -> Validation {
    candidate => Validation(ContextScore(prompt, candidate), ContentScore(candidate))
  }

  /** A candidate the controller accepts without recovery. */
  predicate Acceptable(prompt: string, candidate: string) {
    Passes(Validator(prompt)(candidate))
  }

  /** Acceptance as a fact about the candidate's text: at least 7/15 of the
      prompt's keywords shared (or a prompt without keywords), a substantial
      text, and at most one meta-commentary phrase. */
  lemma AcceptableMeans(prompt: string, candidate: string)
    ensures Acceptable(prompt, candidate) <==>
              && (PromptKeywords(prompt) == {} ||
                  15 * |SharedKeywords(prompt, candidate)| >= 7 * |PromptKeywords(prompt)|)
              && Substantial(candidate)
              && PhraseHits(candidate) <= 1
  {
    ContextThreshold(prompt, candidate);
  }

  /** The record of round `n`, which turned `input` into `output` scored `v`. */
  function StepRecord(n: nat, input: string, output: string, v: Validation): StepResult {
    StepResult(n, |input|, |output|, v.context, v.content, input, output, Passes(v))
  }

  /** Whether every recorded round passed validation (Python's `all`). */
  predicate AllPassed(steps: seq<StepResult>) {
    forall i :: 0 <= i < |steps| ==> steps[i].validationPassed
  }

  /** One round and the prompts it sent: `Some(step)` when it completed,
      `None` when one of its calls failed. */
  datatype RoundOutcome = RoundOutcome(step: Option<StepResult>, calls: seq<Prompt>)

  /** Round `n` from the running response `current`, its first call having
      index `pos`: one improvement call, and one recovery call only when the
      first candidate fails a threshold; the round records the last candidate. */
  function Round(prompt: string, judge: string -> Validation, current: string, n: nat,
                 replies: seq<Option<string>>, pos: nat): RoundOutcome
  {
    match Reply(replies, pos)
    case None => RoundOutcome(None, [Refine(prompt, current)])
    case Some(candidate) =>
      if Passes(judge(candidate)) then
        RoundOutcome(Some(StepRecord(n, current, candidate, judge(candidate))), [Refine(prompt, current)])
      else
        var calls := [Refine(prompt, current), Recover(prompt, current)];
        match Reply(replies, pos + 1)
        case None => RoundOutcome(None, calls)
        case Some(recovered) => RoundOutcome(Some(StepRecord(n, current, recovered, judge(recovered))), calls)
  }

  /** A round sends one improvement prompt, and a recovery prompt for the same
      response only when the first candidate fails a threshold; it completes
      when its calls succeed, recording the recovered candidate if there was a
      recovery and the first one otherwise; a failed round's last call failed. */
  lemma RoundShape(prompt: string, judge: string -> Validation, current: string, n: nat,
                   replies: seq<Option<string>>, pos: nat)
    ensures var out := Round(prompt, judge, current, n, replies, pos);
            var first := Reply(replies, pos);
            && (out.calls == [Refine(prompt, current)] || out.calls == [Refine(prompt, current), Recover(prompt, current)])
            && (|out.calls| == 1 <==> first.None? || Passes(judge(first.value)))
            && (out.step.Some? <==> first.Some? && (Passes(judge(first.value)) || Reply(replies, pos + 1).Some?))
            && (out.step.Some? ==>
                  var output := Reply(replies, pos + |out.calls| - 1).value;
                  out.step.value == StepRecord(n, current, output, judge(output)))
            && (out.step.None? ==> Reply(replies, pos + |out.calls| - 1).None?)
  {
  }

  /** The loop's state between rounds: the rounds recorded so far, the running
      response and the prompts sent so far (the next call has index |calls|). */
  datatype LoopState = LoopState(steps: seq<StepResult>, current: string, calls: seq<Prompt>)

  /** The rest of the loop from state `s`. Round |s.steps| + 1 runs when it is
      within the step budget; a failed round ends the loop, leaving the state
      as it was apart from the prompts sent; the loop also stops after a round
      once |steps| reaches `maxIterations`. */
  function RunFrom(prompt: string, judge: string -> Validation, steps: int, maxIterations: int,
                   replies: seq<Option<string>>, s: LoopState): LoopState
    decreases steps - |s.steps|
  {
    if |s.steps| >= steps then s
    else
      var round := Round(prompt, judge, s.current, |s.steps| + 1, replies, |s.calls|);
      var calls := s.calls + round.calls;
      match round.step
      case None => LoopState(s.steps, s.current, calls)
      case Some(step) =>
        var next := LoopState(s.steps + [step], step.outputContent, calls);
        if |next.steps| >= maxIterations then next
        else RunFrom(prompt, judge, steps, maxIterations, replies, next)
  }

  /** The loop from its initial state: no rounds, the prompt as running response. */
  function RunLoop(prompt: string, judge: string -> Validation, steps: int, maxIterations: int,
                   replies: seq<Option<string>>): LoopState
  {
    RunFrom(prompt, judge, steps, maxIterations, replies, LoopState([], prompt, []))
  }

  /** The record returned for a finished loop. */
  function Finish(prompt: string, s: LoopState): RefinementRun {
    RefinementRun(prompt, s.steps, s.current, AllPassed(s.steps), AllPassed(s.steps), |s.steps|)
  }

  /** The controller with scoring function `judge`: the key check, then the loop. */
  function RefinementWith(apiKey: Option<string>, prompt: string, judge: string -> Validation, steps: int,
                          maxIterations: int, replies: seq<Option<string>>): Exchange<RefinementRun>
  {
    if !HasApiKey(apiKey) then Exchange(Err(MissingApiKey), [])
    else
      var s := RunLoop(prompt, judge, steps, maxIterations, replies);
      Exchange(Ok(Finish(prompt, s)), s.calls)
  }

  /** `improved_multi_step_reflection`: the controller scoring with both validators. */
  function Refinement(apiKey: Option<string>, prompt: string, steps: int, maxIterations: int,
                      replies: seq<Option<string>>): Exchange<RefinementRun>
  {
    RefinementWith(apiKey, prompt, Validator(prompt), steps, maxIterations, replies)
  }

  // ---------------------------------------------------------------------------
  // What a run looks like

  /** The running response a run leaves after the rounds `steps`: the last
      round's output, or the prompt when no round completed. */
  function LastOutput(prompt: string, steps: seq<StepResult>): string {
    if steps == [] then prompt else steps[|steps| - 1].outputContent
  }

  /** The recorded rounds chain: round i + 1 is numbered i + 1 and carries the
      scores of its own output; the first starts from the prompt and each
      later one from the previous round's output; `current` is the response
      the last round left. */
  ghost predicate Chained(prompt: string, judge: string -> Validation, steps: seq<StepResult>, current: string) {
    && (forall i :: 0 <= i < |steps| ==>
          steps[i] == StepRecord(i + 1, steps[i].inputContent, steps[i].outputContent,
                                 judge(steps[i].outputContent)))
    && (steps != [] ==> steps[0].inputContent == prompt)
    && (forall i, j :: 0 <= i < j < |steps| && j == i + 1 ==> steps[j].inputContent == steps[i].outputContent)
    && current == LastOutput(prompt, steps)
  }

  /** Appending the record of the next round keeps the rounds chained. */
  lemma ChainedSnoc(prompt: string, judge: string -> Validation, steps: seq<StepResult>, current: string,
                    step: StepResult)
    requires Chained(prompt, judge, steps, current)
    requires step == StepRecord(|steps| + 1, current, step.outputContent, judge(step.outputContent))
    ensures Chained(prompt, judge, steps + [step], step.outputContent)
  {
    var next := steps + [step];
    forall i | 0 <= i < |next|
      ensures next[i] == StepRecord(i + 1, next[i].inputContent, next[i].outputContent, judge(next[i].outputContent))
    {
      if i < |steps| {
        assert next[i] == steps[i];
      }
    }
    forall i, j | 0 <= i < j < |next| && j == i + 1
      ensures next[j].inputContent == next[i].outputContent
    {
      assert next[i] == steps[i];
      if j < |steps| {
        assert next[j] == steps[j];
      }
    }
  }

  lemma {:induction false} RunFromChained(prompt: string, judge: string -> Validation, steps: int, maxIterations: int,
                                          replies: seq<Option<string>>, s: LoopState)
    requires Chained(prompt, judge, s.steps, s.current)
    ensures var r := RunFrom(prompt, judge, steps, maxIterations, replies, s);
            Chained(prompt, judge, r.steps, r.current)
    decreases steps - |s.steps|
  {
    if |s.steps| < steps {
      var n := |s.steps| + 1;
      var round := Round(prompt, judge, s.current, n, replies, |s.calls|);
      RoundShape(prompt, judge, s.current, n, replies, |s.calls|);
      if round.step.Some? {
        var step := round.step.value;
        ChainedSnoc(prompt, judge, s.steps, s.current, step);
        var next := LoopState(s.steps + [step], step.outputContent, s.calls + round.calls);
        if |next.steps| < maxIterations {
          RunFromChained(prompt, judge, steps, maxIterations, replies, next);
        }
      }
    }
  }

  /** The rounds of a run chain from the prompt: round i + 1 is numbered
      i + 1, the first starts from the prompt and each later one from the
      previous round's output, the final response is the last round's output
      (the prompt when no round completed), and each round carries the
      lengths and both scores of its own texts and passes exactly when its
      output is acceptable. Both flags say that every round passed validation. */
  lemma RefinementChains(apiKey: Option<string>, prompt: string, steps: int, maxIterations: int,
                         replies: seq<Option<string>>)
    requires HasApiKey(apiKey)
    ensures var out := Refinement(apiKey, prompt, steps, maxIterations, replies);
            && out.result.Ok?
            && var run := out.result.value;
            && run.originalPrompt == prompt
            && run.totalIterations == |run.steps|
            && run.finalResponse == LastOutput(prompt, run.steps)
            && (run.steps != [] ==> run.steps[0].inputContent == prompt)
            && (forall i, j :: 0 <= i < j < |run.steps| && j == i + 1 ==>
                  run.steps[j].inputContent == run.steps[i].outputContent)
            && (forall i :: 0 <= i < |run.steps| ==>
                  && run.steps[i].stepNumber == i + 1
                  && run.steps[i].inputLength == |run.steps[i].inputContent|
                  && run.steps[i].outputLength == |run.steps[i].outputContent|
                  && run.steps[i].contextScore == ContextScore(prompt, run.steps[i].outputContent)
                  && run.steps[i].contentScore == ContentScore(run.steps[i].outputContent)
                  && (run.steps[i].validationPassed <==> Acceptable(prompt, run.steps[i].outputContent)))
            && (run.contextMaintained <==> forall i :: 0 <= i < |run.steps| ==> run.steps[i].validationPassed)
            && run.validationPassed == run.contextMaintained
  {
    RunFromChained(prompt, Validator(prompt), steps, maxIterations, replies, LoopState([], prompt, []));
  }

  /** Round `step` was answered by the call at index `k`: that call is the
      improvement prompt for the round's input and came back; when its reply
      passes, it is the round's output, otherwise the next call is the
      recovery prompt for the same input and its reply is the round's output. */
  ghost predicate AnsweredAt(prompt: string, judge: string -> Validation, replies: seq<Option<string>>,
                             calls: seq<Prompt>, step: StepResult, k: int)
  {
    && 0 <= k < |calls|
    && calls[k] == Refine(prompt, step.inputContent)
    && Reply(replies, k).Some?
    && if Passes(judge(Reply(replies, k).value)) then step.outputContent == Reply(replies, k).value
       else && k + 1 < |calls|
            && calls[k + 1] == Recover(prompt, step.inputContent)
            && Reply(replies, k + 1).Some?
            && step.outputContent == Reply(replies, k + 1).value
  }

  /** Some call of the log answered round `step`. */
  ghost predicate Answered(prompt: string, judge: string -> Validation, replies: seq<Option<string>>,
                           calls: seq<Prompt>, step: StepResult)
  {
    exists k :: AnsweredAt(prompt, judge, replies, calls, step, k)
  }

  /** Every recorded round was answered by some call of the log. */
  ghost predicate AllAnswered(prompt: string, judge: string -> Validation, replies: seq<Option<string>>,
                              calls: seq<Prompt>, steps: seq<StepResult>)
  {
    forall i :: 0 <= i < |steps| ==> Answered(prompt, judge, replies, calls, steps[i])
  }

  /** Sending more prompts keeps every recorded round answered. */
  lemma AnsweredExtend(prompt: string, judge: string -> Validation, replies: seq<Option<string>>,
                       calls: seq<Prompt>, more: seq<Prompt>, steps: seq<StepResult>)
    requires AllAnswered(prompt, judge, replies, calls, steps)
    ensures AllAnswered(prompt, judge, replies, calls + more, steps)
  {
    forall i | 0 <= i < |steps|
      ensures Answered(prompt, judge, replies, calls + more, steps[i])
    {
      var k :| AnsweredAt(prompt, judge, replies, calls, steps[i], k);
      assert (calls + more)[k] == calls[k];
      if k + 1 < |calls| {
        assert (calls + more)[k + 1] == calls[k + 1];
      }
      assert AnsweredAt(prompt, judge, replies, calls + more, steps[i], k);
    }
  }

  /** The round a run records next was answered by its own calls. */
  lemma RoundAnswered(prompt: string, judge: string -> Validation, s: LoopState, replies: seq<Option<string>>)
    requires Round(prompt, judge, s.current, |s.steps| + 1, replies, |s.calls|).step.Some?
    ensures var round := Round(prompt, judge, s.current, |s.steps| + 1, replies, |s.calls|);
            && AnsweredAt(prompt, judge, replies, s.calls + round.calls, round.step.value, |s.calls|)
            && round.step.value.inputContent == s.current
  {
    var round := Round(prompt, judge, s.current, |s.steps| + 1, replies, |s.calls|);
    RoundShape(prompt, judge, s.current, |s.steps| + 1, replies, |s.calls|);
    var all := s.calls + round.calls;
    assert all[|s.calls|] == round.calls[0];
    if |round.calls| == 2 {
      assert all[|s.calls| + 1] == round.calls[1];
    }
  }

  lemma {:induction false} RunFromAnswered(prompt: string, judge: string -> Validation, steps: int, maxIterations: int,
                                           replies: seq<Option<string>>, s: LoopState)
    requires AllAnswered(prompt, judge, replies, s.calls, s.steps)
    ensures var r := RunFrom(prompt, judge, steps, maxIterations, replies, s);
            AllAnswered(prompt, judge, replies, r.calls, r.steps)
    decreases steps - |s.steps|
  {
    if |s.steps| < steps {
      var n := |s.steps| + 1;
      var round := Round(prompt, judge, s.current, n, replies, |s.calls|);
      AnsweredExtend(prompt, judge, replies, s.calls, round.calls, s.steps);
      if round.step.Some? {
        var step := round.step.value;
        var next := LoopState(s.steps + [step], step.outputContent, s.calls + round.calls);
        RoundAnswered(prompt, judge, s, replies);
        forall i | 0 <= i < |next.steps|
          ensures Answered(prompt, judge, replies, next.calls, next.steps[i])
        {
          if i < |s.steps| {
            assert next.steps[i] == s.steps[i];
          } else {
            assert AnsweredAt(prompt, judge, replies, next.calls, next.steps[i], |s.calls|);
          }
        }
        if |next.steps| < maxIterations {
          RunFromAnswered(prompt, judge, steps, maxIterations, replies, next);
        }
      }
    }
  }

  /** Every recorded round of a run is backed by the service: some improvement
      prompt for the round's input came back, and the round's output is that
      reply when it passed, and otherwise the reply to the recovery prompt
      sent right after it. */
  lemma RunAnswered(apiKey: Option<string>, prompt: string, judge: string -> Validation, steps: int,
                    maxIterations: int, replies: seq<Option<string>>)
    requires HasApiKey(apiKey)
    ensures var out := RefinementWith(apiKey, prompt, judge, steps, maxIterations, replies);
            && out.result.Ok?
            && AllAnswered(prompt, judge, replies, out.calls, out.result.value.steps)
  {
    RunFromAnswered(prompt, judge, steps, maxIterations, replies, LoopState([], prompt, []));
  }

  /** The same for the controller's own scoring: a round's output is the
      improvement reply when that reply is acceptable, and the recovery reply
      otherwise. */
  lemma RefinementAnswered(apiKey: Option<string>, prompt: string, steps: int, maxIterations: int,
                           replies: seq<Option<string>>)
    requires HasApiKey(apiKey)
    ensures var out := Refinement(apiKey, prompt, steps, maxIterations, replies);
            && out.result.Ok?
            && AllAnswered(prompt, Validator(prompt), replies, out.calls, out.result.value.steps)
  {
    RunAnswered(apiKey, prompt, Validator(prompt), steps, maxIterations, replies);
  }

  /** How many rounds a run completes when no call fails: the step budget
      (none when it is not positive), cut to `maxIterations`, but at least one
      round since the ceiling is checked only after a round. */
  function PlannedRounds(steps: int, maxIterations: int): nat {
    if steps <= 0 then 0
    else if maxIterations <= 1 then 1
    else if steps <= maxIterations then steps
    else maxIterations
  }

  /** The loop invariant of a run: rounds within the step budget, below the
      ceiling once one has completed, and one or two calls per round. */
  predicate Underway(steps: int, maxIterations: int, s: LoopState) {
    && (|s.steps| <= steps || s.steps == [])
    && (|s.steps| < maxIterations || s.steps == [])
    && |s.steps| <= |s.calls| <= 2 * |s.steps|
  }

  lemma {:induction false} RunFromStops(prompt: string, judge: string -> Validation, steps: int, maxIterations: int,
                                        replies: seq<Option<string>>, s: LoopState)
    requires Underway(steps, maxIterations, s)
    ensures var r := RunFrom(prompt, judge, steps, maxIterations, replies, s);
            && |r.steps| <= PlannedRounds(steps, maxIterations)
            && |r.steps| <= |r.calls| <= 2 * |r.steps| + 2
            && (|r.steps| < PlannedRounds(steps, maxIterations) ==>
                  |r.calls| > 0 && Reply(replies, |r.calls| - 1).None?)
            && |s.calls| <= |r.calls|
            && (steps <= |s.steps| ==> r == s)
            && (steps > |s.steps| ==> |r.calls| > |s.calls|)
    decreases steps - |s.steps|
  {
    if |s.steps| < steps {
      var n := |s.steps| + 1;
      var round := Round(prompt, judge, s.current, n, replies, |s.calls|);
      RoundShape(prompt, judge, s.current, n, replies, |s.calls|);
      if round.step.Some? {
        var next := LoopState(s.steps + [round.step.value], round.step.value.outputContent, s.calls + round.calls);
        if |next.steps| < maxIterations {
          RunFromStops(prompt, judge, steps, maxIterations, replies, next);
        }
      }
    }
  }

  /** A run whose last call failed ended short of the planned rounds. */
  lemma {:induction false} RunFromFailureEndsEarly(prompt: string, judge: string -> Validation, steps: int,
                                                   maxIterations: int, replies: seq<Option<string>>, s: LoopState)
    requires Underway(steps, maxIterations, s)
    ensures var r := RunFrom(prompt, judge, steps, maxIterations, replies, s);
            |r.calls| > |s.calls| && Reply(replies, |r.calls| - 1).None? ==>
              |r.steps| < PlannedRounds(steps, maxIterations)
    decreases steps - |s.steps|
  {
    if |s.steps| < steps {
      var n := |s.steps| + 1;
      var round := Round(prompt, judge, s.current, n, replies, |s.calls|);
      RoundShape(prompt, judge, s.current, n, replies, |s.calls|);
      if round.step.Some? {
        var next := LoopState(s.steps + [round.step.value], round.step.value.outputContent, s.calls + round.calls);
        if |next.steps| < maxIterations {
          RunFromStops(prompt, judge, steps, maxIterations, replies, next);
          RunFromFailureEndsEarly(prompt, judge, steps, maxIterations, replies, next);
        }
      }
    }
  }

  /** Only the last call of a run can have failed: a failed call ends the run. */
  lemma {:induction false} RunFromAbort(prompt: string, judge: string -> Validation, steps: int, maxIterations: int,
                                        replies: seq<Option<string>>, s: LoopState)
    requires forall i :: 0 <= i < |s.calls| ==> Reply(replies, i).Some?
    ensures var r := RunFrom(prompt, judge, steps, maxIterations, replies, s);
            && |s.calls| <= |r.calls|
            && forall i :: 0 <= i < |r.calls| - 1 ==> Reply(replies, i).Some?
    decreases steps - |s.steps|
  {
    if |s.steps| < steps {
      var n := |s.steps| + 1;
      var round := Round(prompt, judge, s.current, n, replies, |s.calls|);
      RoundShape(prompt, judge, s.current, n, replies, |s.calls|);
      if round.step.Some? {
        var next := LoopState(s.steps + [round.step.value], round.step.value.outputContent, s.calls + round.calls);
        if |next.steps| < maxIterations {
          RunFromAbort(prompt, judge, steps, maxIterations, replies, next);
        }
      }
    }
  }

  /** A run never exceeds the step budget or the iteration ceiling (a ceiling
      below one still allows one round), sends one or two prompts per
      completed round and at most two more for a failed one, and sends none
      only when the step budget is not positive. It stops short of the
      planned rounds exactly when its last call failed, and every call before
      the last succeeded: a failed call ends the run, nothing is sent after
      it, and its round is not recorded. This holds for any scoring function. */
  lemma RunStops(apiKey: Option<string>, prompt: string, judge: string -> Validation, steps: int,
                 maxIterations: int, replies: seq<Option<string>>)
    requires HasApiKey(apiKey)
    ensures var out := RefinementWith(apiKey, prompt, judge, steps, maxIterations, replies);
            && out.result.Ok?
            && var total := out.result.value.totalIterations;
            && total <= PlannedRounds(steps, maxIterations)
            && (total <= steps || total == 0)
            && (total <= maxIterations || total <= 1)
            && total <= |out.calls| <= 2 * total + 2
            && (out.calls == [] <==> steps <= 0)
            && (total < PlannedRounds(steps, maxIterations) <==>
                  |out.calls| > 0 && Reply(replies, |out.calls| - 1).None?)
            && forall i :: 0 <= i < |out.calls| - 1 ==> Reply(replies, i).Some?
  {
    RunFromStops(prompt, judge, steps, maxIterations, replies, LoopState([], prompt, []));
    RunFromFailureEndsEarly(prompt, judge, steps, maxIterations, replies, LoopState([], prompt, []));
    RunFromAbort(prompt, judge, steps, maxIterations, replies, LoopState([], prompt, []));
  }

  /** When every call a run can make succeeds, it completes all planned rounds. */
  lemma RunCompletes(apiKey: Option<string>, prompt: string, judge: string -> Validation, steps: int,
                     maxIterations: int, replies: seq<Option<string>>)
    requires HasApiKey(apiKey)
    requires AllSucceed(replies, 0, 2 * PlannedRounds(steps, maxIterations))
    ensures var out := RefinementWith(apiKey, prompt, judge, steps, maxIterations, replies);
            out.result.Ok? && out.result.value.totalIterations == PlannedRounds(steps, maxIterations)
  {
    RunStops(apiKey, prompt, judge, steps, maxIterations, replies);
  }

  /** When the very first call fails, a run records nothing and returns the
      prompt itself, after sending the one improvement prompt. */
  lemma RunFirstCallFails(apiKey: Option<string>, prompt: string, judge: string -> Validation, steps: int,
                          maxIterations: int, replies: seq<Option<string>>)
    requires HasApiKey(apiKey) && steps >= 1 && Reply(replies, 0).None?
    ensures RefinementWith(apiKey, prompt, judge, steps, maxIterations, replies)
              == Exchange(Ok(RefinementRun(prompt, [], prompt, true, true, 0)), [Refine(prompt, prompt)])
  {
  }

  /** The prompts of a run, in call order: every one is an improvement or a
      recovery prompt about the original prompt, and the log starts with an
      improvement prompt. A recovery prompt is sent only right after an
      improvement prompt for the same response whose reply failed a
      threshold, and such a rejected improvement prompt is always followed by
      the recovery prompt (so it is never the last prompt). */
  ghost predicate WellOrderedCalls(prompt: string, judge: string -> Validation, replies: seq<Option<string>>,
                                   calls: seq<Prompt>)
  {
    && (forall j :: 0 <= j < |calls| ==> (calls[j].Refine? || calls[j].Recover?) && calls[j].topic == prompt)
    && (calls != [] ==> calls[0].Refine?)
    && (forall i, j :: 0 <= i < j < |calls| && j == i + 1 && calls[j].Recover? ==>
          && calls[i] == Refine(prompt, calls[j].current)
          && Reply(replies, i).Some?
          && !Passes(judge(Reply(replies, i).value)))
    && (forall i, j :: 0 <= i < j < |calls| && j == i + 1 && Rejected(judge, replies, calls, i) ==>
          calls[j] == Recover(prompt, calls[i].current))
    && (calls != [] ==> !Rejected(judge, replies, calls, |calls| - 1))
  }

  /** Call i is an improvement prompt whose reply `judge` rejected. */
  ghost predicate Rejected(judge: string -> Validation, replies: seq<Option<string>>, calls: seq<Prompt>, i: nat)
    requires i < |calls|
  {
    calls[i].Refine? && Reply(replies, i).Some? && !Passes(judge(Reply(replies, i).value))
  }

  lemma {:induction false} RunFromCalls(prompt: string, judge: string -> Validation, steps: int, maxIterations: int,
                                        replies: seq<Option<string>>, s: LoopState)
    requires WellOrderedCalls(prompt, judge, replies, s.calls)
    ensures WellOrderedCalls(prompt, judge, replies, RunFrom(prompt, judge, steps, maxIterations, replies, s).calls)
    decreases steps - |s.steps|
  {
    if |s.steps| < steps {
      var n := |s.steps| + 1;
      var round := Round(prompt, judge, s.current, n, replies, |s.calls|);
      RoundShape(prompt, judge, s.current, n, replies, |s.calls|);
      CallsSnoc(prompt, judge, replies, s.calls, round.calls, s.current);
      if round.step.Some? {
        var next := LoopState(s.steps + [round.step.value], round.step.value.outputContent, s.calls + round.calls);
        if |next.steps| < maxIterations {
          RunFromCalls(prompt, judge, steps, maxIterations, replies, next);
        }
      }
    }
  }

  /** Appending the prompts of one round keeps the log well ordered. */
  lemma CallsSnoc(prompt: string, judge: string -> Validation, replies: seq<Option<string>>,
                  calls: seq<Prompt>, more: seq<Prompt>, current: string)
    requires WellOrderedCalls(prompt, judge, replies, calls)
    requires || (more == [Refine(prompt, current)]
                 && (Reply(replies, |calls|).None? || Passes(judge(Reply(replies, |calls|).value))))
             || (more == [Refine(prompt, current), Recover(prompt, current)]
                 && Reply(replies, |calls|).Some? && !Passes(judge(Reply(replies, |calls|).value)))
    ensures WellOrderedCalls(prompt, judge, replies, calls + more)
  {
    var all := calls + more;
    forall j | 0 <= j < |all|
      ensures (all[j].Refine? || all[j].Recover?) && all[j].topic == prompt
    {
      if j < |calls| {
        assert all[j] == calls[j];
      } else {
        assert all[j] == more[j - |calls|];
      }
    }
    forall i, j | 0 <= i < j < |all| && j == i + 1 && all[j].Recover?
      ensures && all[i] == Refine(prompt, all[j].current)
              && Reply(replies, i).Some?
              && !Passes(judge(Reply(replies, i).value))
    {
      if j < |calls| {
        assert all[i] == calls[i] && all[j] == calls[j];
      } else {
        if i >= |calls| {
          assert all[i] == more[0];
        }
      }
    }
    forall i, j | 0 <= i < j < |all| && j == i + 1 && Rejected(judge, replies, all, i)
      ensures all[j] == Recover(prompt, all[i].current)
    {
      if j < |calls| {
        assert all[i] == calls[i] && all[j] == calls[j];
        assert Rejected(judge, replies, calls, i);
      } else if i < |calls| {
        assert all[i] == calls[|calls| - 1];
        assert Rejected(judge, replies, calls, |calls| - 1);
      } else {
        assert all[i] == more[0] && all[j] == more[1];
      }
    }
    assert all[|all| - 1] == more[|more| - 1];
  }

  /** Every prompt a run sends is an improvement or recovery prompt about the
      original prompt; a recovery prompt follows exactly the improvement
      prompts for the same response whose reply `judge` rejected (with the
      controller's own scoring, a reply that is not `Acceptable`). */
  lemma RunCalls(apiKey: Option<string>, prompt: string, judge: string -> Validation, steps: int,
                 maxIterations: int, replies: seq<Option<string>>)
    ensures WellOrderedCalls(prompt, judge, replies,
                             RefinementWith(apiKey, prompt, judge, steps, maxIterations, replies).calls)
  {
    if HasApiKey(apiKey) {
      RunFromCalls(prompt, judge, steps, maxIterations, replies, LoopState([], prompt, []));
    }
  }

  /** Every reply the service gives is accepted by `judge`. */
  ghost predicate AcceptingService(judge: string -> Validation, replies: seq<Option<string>>) {
    forall i :: 0 <= i < |replies| && replies[i].Some? ==> Passes(judge(replies[i].value))
  }

  lemma {:induction false} RunFromAccepting(prompt: string, judge: string -> Validation, steps: int, maxIterations: int,
                                            replies: seq<Option<string>>, s: LoopState)
    requires AcceptingService(judge, replies) && AllPassed(s.steps)
    ensures AllPassed(RunFrom(prompt, judge, steps, maxIterations, replies, s).steps)
    decreases steps - |s.steps|
  {
    if |s.steps| < steps {
      var n := |s.steps| + 1;
      var round := Round(prompt, judge, s.current, n, replies, |s.calls|);
      if round.step.Some? {
        var next := LoopState(s.steps + [round.step.value], round.step.value.outputContent, s.calls + round.calls);
        assert AllPassed(next.steps);
        if |next.steps| < maxIterations {
          RunFromAccepting(prompt, judge, steps, maxIterations, replies, next);
        }
      }
    }
  }

  /** With a service whose every reply `judge` accepts, a run never sends a
      recovery prompt, every round passes, and both flags are set. */
  lemma RunWithAcceptingService(apiKey: Option<string>, prompt: string, judge: string -> Validation, steps: int,
                                maxIterations: int, replies: seq<Option<string>>)
    requires HasApiKey(apiKey) && AcceptingService(judge, replies)
    ensures var out := RefinementWith(apiKey, prompt, judge, steps, maxIterations, replies);
            && out.result.Ok?
            && out.result.value.contextMaintained && out.result.value.validationPassed
            && forall j :: 0 <= j < |out.calls| ==> out.calls[j].Refine?
  {
    RunFromAccepting(prompt, judge, steps, maxIterations, replies, LoopState([], prompt, []));
    RunCalls(apiKey, prompt, judge, steps, maxIterations, replies);
    var calls := RefinementWith(apiKey, prompt, judge, steps, maxIterations, replies).calls;
    forall j | 0 <= j < |calls|
      ensures calls[j].Refine?
    {
      if j > 0 {
        assert calls[j - 1].topic == prompt;
      }
    }
  }

  /** The controller itself, with a service whose every reply meets both
      thresholds: no recovery prompt, and both flags set. */
  lemma RefinementWithAcceptableReplies(apiKey: Option<string>, prompt: string, steps: int, maxIterations: int,
                                        replies: seq<Option<string>>)
    requires HasApiKey(apiKey)
    requires forall i :: 0 <= i < |replies| && replies[i].Some? ==> Acceptable(prompt, replies[i].value)
    ensures var out := Refinement(apiKey, prompt, steps, maxIterations, replies);
            && out.result.Ok?
            && out.result.value.contextMaintained && out.result.value.validationPassed
            && forall j :: 0 <= j < |out.calls| ==> out.calls[j].Refine?
  {
    RunWithAcceptingService(apiKey, prompt, Validator(prompt), steps, maxIterations, replies);
  }

  // ---------------------------------------------------------------------------
  // The controller

  /** The body of one round (the `try` block): generate, score, recover at
      most once when a threshold is missed, and record the last candidate with
      its scores; `None` when a call raised. */
  method RefineOnce(prompt: string, judge: string -> Validation, current: string, stepNum: nat,
                    replies: seq<Option<string>>, pos: nat)
    returns (step: Option<StepResult>, sent: seq<Prompt>)
    ensures RoundOutcome(step, sent) == Round(prompt, judge, current, stepNum, replies, pos)
  {
    var reply := Reply(replies, pos);
    sent := [Refine(prompt, current)];
    if reply.None? {
      return None, sent;
    }
    var improved := reply.value;
    var scores := judge(improved);
    if scores.context < 0.7 || scores.content < 0.6 {
      reply := Reply(replies, pos + 1);
      sent := sent + [Recover(prompt, current)];
      if reply.None? {
        return None, sent;
      }
      improved := reply.value;
      scores := judge(improved);
    }
    var record := StepResult(stepNum, |current|, |improved|, scores.context, scores.content,
                             current, improved, scores.context >= 0.7 && scores.content >= 0.6);
    return Some(record), sent;
  }

  /** The rounds of `improved_multi_step_reflection`, from the prompt as the
      running response until the step budget, the iteration ceiling or a
      failed call ends them, and the record built from them. */
  method RefinementLoop(prompt: string, judge: string -> Validation, steps: int, maxIterations: int,
                        replies: seq<Option<string>>)
    returns (run: RefinementRun, calls: seq<Prompt>)
    ensures var s := RunLoop(prompt, judge, steps, maxIterations, replies);
            run == Finish(prompt, s) && calls == s.calls
  {
    ghost var goal := RunLoop(prompt, judge, steps, maxIterations, replies);
    var stepList: seq<StepResult> := [];
    var current := prompt;
    var iterationCount := 0;
    calls := [];
    var stepNum := 1;
    while stepNum <= steps
      invariant iterationCount == |stepList|
      invariant stepNum == iterationCount + 1
      invariant RunFrom(prompt, judge, steps, maxIterations, replies, LoopState(stepList, current, calls)) == goal
      decreases steps - stepNum
    {
      var step, sent := RefineOnce(prompt, judge, current, stepNum, replies, |calls|);
      calls := calls + sent;
      if step.None? {
        break;
      }
      stepList := stepList + [step.value];
      current := step.value.outputContent;
      iterationCount := iterationCount + 1;
      if iterationCount >= maxIterations {
        break;
      }
      stepNum := stepNum + 1;
    }
    assert LoopState(stepList, current, calls) == goal;
    var contextMaintained := AllPassed(stepList);
    run := RefinementRun(prompt, stepList, current, contextMaintained, contextMaintained, iterationCount);
  }

  /** `improved_multi_step_reflection`: the key check, then the rounds scored
      by both validators. */
  method ImprovedMultiStepReflection(apiKey: Option<string>, prompt: string, steps: int, maxIterations: int,
                                     replies: seq<Option<string>>)
    returns (outcome: Result<RefinementRun>, calls: seq<Prompt>)
    ensures Exchange(outcome, calls) == Refinement(apiKey, prompt, steps, maxIterations, replies)
    ensures outcome.Err? <==> !HasApiKey(apiKey)
    ensures outcome.Err? ==> outcome.error == MissingApiKey && calls == []
  {
    if !HasApiKey(apiKey) {
      return Err(MissingApiKey), [];
    }
    var run;
    run, calls := RefinementLoop(prompt, Validator(prompt), steps, maxIterations, replies);
    outcome := Ok(run);
  }
}
