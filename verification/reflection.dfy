/** The unvalidated reflection flows: generate then critique
    (`reflect_and_improve`), the comparison prompt built on it
    (`compare_responses`), and the two loops over it (`multi_step_reflection`,
    `batch_reflect`). A failed call or a missing key propagates to the caller. */
module Reflection {
  import opened Oracle

  /** `reflect_and_improve`: check the key, generate a response to `prompt`
      (the call at index `pos`), then ask for a critique of that response
      (index `pos + 1`). */
  function ReflectAndImprove(apiKey: Option<string>, prompt: Prompt, replies: seq<Option<string>>, pos: nat)
    : (out: Exchange<(string, string)>)
    ensures !HasApiKey(apiKey) ==> out == Exchange(Err(MissingApiKey), [])
    ensures HasApiKey(apiKey) ==> 1 <= |out.calls| <= 2 && out.calls[0] == prompt
    ensures out.result.Ok? <==> HasApiKey(apiKey) && AllSucceed(replies, pos, pos + 2)
    ensures out.result.Err? && HasApiKey(apiKey) ==> out.result.error == GenerationFailed
    ensures out.result.Ok? ==>
              out.result.value == (Reply(replies, pos).value, Reply(replies, pos + 1).value)
              && out.calls == [prompt, Critique(Reply(replies, pos).value)]
  {
    if !HasApiKey(apiKey) then Exchange(Err(MissingApiKey), [])
    else match Reply(replies, pos)
      case None => Exchange(Err(GenerationFailed), [prompt])
      case Some(initial) =>
        var calls := [prompt, Critique(initial)];
        match Reply(replies, pos + 1)
        case None => Exchange(Err(GenerationFailed), calls)
        case Some(improved) => Exchange(Ok((initial, improved)), calls)
  }

  /** `compare_responses`: reflect on a prompt asking how `improved` differs
      from `initial`. */
  function CompareResponses(apiKey: Option<string>, initial: string, improved: string,
                            replies: seq<Option<string>>): (out: Exchange<(string, string)>)
    ensures HasApiKey(apiKey) ==> |out.calls| >= 1 && out.calls[0] == Compare(initial, improved)
    ensures out.result.Ok? <==> HasApiKey(apiKey) && AllSucceed(replies, 0, 2)
    ensures out.result.Ok? ==> out.result.value == (Reply(replies, 0).value, Reply(replies, 1).value)
  {
    ReflectAndImprove(apiKey, Compare(initial, improved), replies, 0)
  }

  // ---------------------------------------------------------------------------
  // multi_step_reflection

  /** `remaining` more reflection cycles starting from `current`, the first
      call being the one at index `pos`. */
  function MultiStepFrom(apiKey: Option<string>, current: string, remaining: nat,
                         replies: seq<Option<string>>, pos: nat): Exchange<string>
    decreases remaining
  {
    if remaining == 0 then Exchange(Ok(current), [])
    else
      var cycle := ReflectAndImprove(apiKey, Plain(current), replies, pos);
      match cycle.result
      case Err(e) => Exchange(Err(e), cycle.calls)
      case Ok(pair) =>
        var rest := MultiStepFrom(apiKey, pair.1, remaining - 1, replies, pos + 2);
        Exchange(rest.result, cycle.calls + rest.calls)
  }

  /** Python's `range(steps)` has `max(steps, 0)` elements. */
  function Rounds(steps: int): nat {
    if steps > 0 then steps else 0
  }

  /** One cycle of `MultiStepFrom` unfolded. */
  lemma MultiStepUnfold(apiKey: Option<string>, current: string, remaining: nat,
                        replies: seq<Option<string>>, pos: nat)
    requires remaining > 0
    ensures var cycle := ReflectAndImprove(apiKey, Plain(current), replies, pos);
            var out := MultiStepFrom(apiKey, current, remaining, replies, pos);
            && (cycle.result.Err? ==> out == Exchange(Err(cycle.result.error), cycle.calls))
            && (cycle.result.Ok? ==>
                  |cycle.calls| == 2 &&
                  var rest := MultiStepFrom(apiKey, cycle.result.value.1, remaining - 1, replies, pos + 2);
                  out == Exchange(rest.result, cycle.calls + rest.calls))
  {
  }

  /** `multi_step_reflection`: each cycle reflects on the previous cycle's
      improved text, starting from the prompt itself. */
  method MultiStepReflection(apiKey: Option<string>, prompt: string, steps: int,
                             replies: seq<Option<string>>) returns (result: Result<string>, calls: seq<Prompt>)
    ensures Exchange(result, calls) == MultiStepFrom(apiKey, prompt, Rounds(steps), replies, 0)
  {
    ghost var goal := MultiStepFrom(apiKey, prompt, Rounds(steps), replies, 0);
    var current := prompt;
    calls := [];
    var i := 0;
    while i < steps
      invariant 0 <= i <= Rounds(steps)
      invariant |calls| == 2 * i
      invariant var rest := MultiStepFrom(apiKey, current, Rounds(steps) - i, replies, |calls|);
                goal == Exchange(rest.result, calls + rest.calls)
    {
      var cycle := ReflectAndImprove(apiKey, Plain(current), replies, |calls|);
      MultiStepUnfold(apiKey, current, Rounds(steps) - i, replies, |calls|);
      if cycle.result.Err? {
        return Err(cycle.result.error), calls + cycle.calls;
      }
      ghost var rest := MultiStepFrom(apiKey, cycle.result.value.1, Rounds(steps) - i - 1, replies, |calls| + 2);
      assert (calls + cycle.calls) + rest.calls == calls + (cycle.calls + rest.calls);
      calls := calls + cycle.calls;
      current := cycle.result.value.1;
      i := i + 1;
    }
    return Ok(current), calls;
  }

  /** No cycles: the prompt comes back unchanged and the key is never checked. */
  lemma MultiStepNoRounds(apiKey: Option<string>, prompt: string, steps: int, replies: seq<Option<string>>)
    requires steps <= 0
    ensures MultiStepFrom(apiKey, prompt, Rounds(steps), replies, 0) == Exchange(Ok(prompt), [])
  {
  }

  /** With at least one cycle and no key, the run fails before any call. */
  lemma MultiStepNeedsKey(apiKey: Option<string>, prompt: string, steps: int, replies: seq<Option<string>>)
    requires steps > 0 && !HasApiKey(apiKey)
    ensures MultiStepFrom(apiKey, prompt, Rounds(steps), replies, 0) == Exchange(Err(MissingApiKey), [])
  {
  }

  /** The text cycle j starts from: the prompt for the first cycle, the
      previous cycle's improved text after that. */
  function CycleInput(current: string, replies: seq<Option<string>>, pos: nat, j: nat): string
    requires j == 0 || Reply(replies, pos + 2 * j - 1).Some?
  {
    if j == 0 then current else Reply(replies, pos + 2 * j - 1).value
  }

  /** The prompts of `n` successful cycles from `current`: each cycle sends
      its text, then a critique of the reply, and the next cycle starts from
      the critique's reply. */
  function CyclePrompts(current: string, replies: seq<Option<string>>, pos: nat, n: nat): seq<Prompt>
    requires AllSucceed(replies, pos, pos + 2 * n)
    decreases n
  {
    if n == 0 then []
    else [Plain(current), Critique(Reply(replies, pos).value)]
         + CyclePrompts(Reply(replies, pos + 1).value, replies, pos + 2, n - 1)
  }

  /** The two prompts of one cycle j sit at positions 2j and 2j + 1. */
  lemma {:induction false} CyclePromptAt(current: string, replies: seq<Option<string>>, pos: nat, n: nat, j: nat)
    requires AllSucceed(replies, pos, pos + 2 * n) && j < n
    ensures var calls := CyclePrompts(current, replies, pos, n);
            && |calls| == 2 * n
            && calls[2 * j] == Plain(CycleInput(current, replies, pos, j))
            && calls[2 * j + 1] == Critique(Reply(replies, pos + 2 * j).value)
    decreases n
  {
    var next := Reply(replies, pos + 1).value;
    var rest := CyclePrompts(next, replies, pos + 2, n - 1);
    if j == 0 {
      if n > 1 {
        CyclePromptAt(next, replies, pos + 2, n - 1, 0);
      }
    } else {
      CyclePromptAt(next, replies, pos + 2, n - 1, j - 1);
      assert CycleInput(current, replies, pos, j) == CycleInput(next, replies, pos + 2, j - 1);
    }
  }

  /** Cycle j's two prompts sit at positions 2j and 2j + 1. */
  lemma CyclePromptsAt(current: string, replies: seq<Option<string>>, pos: nat, n: nat)
    requires AllSucceed(replies, pos, pos + 2 * n)
    ensures var calls := CyclePrompts(current, replies, pos, n);
            && |calls| == 2 * n
            && forall j :: 0 <= j < n ==>
                 calls[2 * j] == Plain(CycleInput(current, replies, pos, j))
                 && calls[2 * j + 1] == Critique(Reply(replies, pos + 2 * j).value)
  {
    if n > 0 {
      CyclePromptAt(current, replies, pos, n, 0);
    }
    forall j | 0 <= j < n
      ensures var calls := CyclePrompts(current, replies, pos, n);
              && calls[2 * j] == Plain(CycleInput(current, replies, pos, j))
              && calls[2 * j + 1] == Critique(Reply(replies, pos + 2 * j).value)
    {
      CyclePromptAt(current, replies, pos, n, j);
    }
  }

  /** When every call succeeds, the cycles chain: cycle j sends the text it
      starts from (the prompt, then each previous cycle's improved text), then
      a critique of the reply; the result is the last improved text. */
  lemma {:induction false} MultiStepChains(apiKey: Option<string>, current: string, remaining: nat,
                                           replies: seq<Option<string>>, pos: nat)
    requires HasApiKey(apiKey) && AllSucceed(replies, pos, pos + 2 * remaining)
    ensures var out := MultiStepFrom(apiKey, current, remaining, replies, pos);
            && out.result == Ok(CycleInput(current, replies, pos, remaining))
            && out.calls == CyclePrompts(current, replies, pos, remaining)
    decreases remaining
  {
    if remaining > 0 {
      var next := Reply(replies, pos + 1).value;
      MultiStepChains(apiKey, next, remaining - 1, replies, pos + 2);
      if remaining > 1 {
        assert CycleInput(current, replies, pos, remaining) == CycleInput(next, replies, pos + 2, remaining - 1);
      }
    }
  }

  /** A failing call anywhere in the cycles fails the whole run. */
  lemma {:induction false} MultiStepPropagatesFailure(apiKey: Option<string>, current: string, remaining: nat,
                                                      replies: seq<Option<string>>, pos: nat, bad: nat)
    requires HasApiKey(apiKey)
    requires pos <= bad < pos + 2 * remaining && Reply(replies, bad).None?
    ensures MultiStepFrom(apiKey, current, remaining, replies, pos).result == Err(GenerationFailed)
    decreases remaining
  {
    if AllSucceed(replies, pos, pos + 2) {
      MultiStepPropagatesFailure(apiKey, Reply(replies, pos + 1).value, remaining - 1, replies, pos + 2, bad);
    }
  }

  // ---------------------------------------------------------------------------
  // batch_reflect

  /** One entry of `batch_reflect`'s result. */
  datatype BatchRecord = BatchRecord(prompt: string, initial: string, improved: string)

  /** The batch after its first `n` prompts, one reflection each, in order;
      once a prompt fails, the batch has failed and nothing more is sent. */
  function BatchPrefix(apiKey: Option<string>, prompts: seq<string>, n: nat, replies: seq<Option<string>>)
    : Exchange<seq<BatchRecord>>
    requires n <= |prompts|
  {
    if n == 0 then Exchange(Ok([]), [])
    else
      var prev := BatchPrefix(apiKey, prompts, n - 1, replies);
      match prev.result
      case Err(_) => prev
      case Ok(records) =>
        var pair := ReflectAndImprove(apiKey, Plain(prompts[n - 1]), replies, |prev.calls|);
        match pair.result
        case Err(e) => Exchange(Err(e), prev.calls + pair.calls)
        case Ok(texts) =>
          Exchange(Ok(records + [BatchRecord(prompts[n - 1], texts.0, texts.1)]), prev.calls + pair.calls)
  }

  /** A failed batch stays failed as more prompts are considered. */
  lemma {:induction false} BatchFailureSticks(apiKey: Option<string>, prompts: seq<string>, n: nat, m: nat,
                                              replies: seq<Option<string>>)
    requires n <= m <= |prompts|
    requires BatchPrefix(apiKey, prompts, n, replies).result.Err?
    ensures BatchPrefix(apiKey, prompts, m, replies) == BatchPrefix(apiKey, prompts, n, replies)
    decreases m - n
  {
    if n < m {
      BatchFailureSticks(apiKey, prompts, n, m - 1, replies);
    }
  }

  /** `batch_reflect`: one record per prompt, appended in input order. */
  method BatchReflect(apiKey: Option<string>, prompts: seq<string>, replies: seq<Option<string>>)
    returns (result: Result<seq<BatchRecord>>, calls: seq<Prompt>)
    ensures Exchange(result, calls) == BatchPrefix(apiKey, prompts, |prompts|, replies)
  {
    var records: seq<BatchRecord> := [];
    calls := [];
    var i := 0;
    while i < |prompts|
      invariant 0 <= i <= |prompts|
      invariant Exchange(Ok(records), calls) == BatchPrefix(apiKey, prompts, i, replies)
    {
      var pair := ReflectAndImprove(apiKey, Plain(prompts[i]), replies, |calls|);
      if pair.result.Err? {
        result, calls := Err(pair.result.error), calls + pair.calls;
        BatchFailureSticks(apiKey, prompts, i + 1, |prompts|, replies);
        return;
      }
      records := records + [BatchRecord(prompts[i], pair.result.value.0, pair.result.value.1)];
      calls := calls + pair.calls;
      i := i + 1;
    }
    return Ok(records), calls;
  }

  /** What a batch yields: it succeeds exactly when it is empty, or the key is
      present and every call succeeds; then it holds one record per prompt, in
      input order, with that prompt's two replies; otherwise it reports the
      missing key or the failed call. */
  lemma {:induction false} BatchOutcome(apiKey: Option<string>, prompts: seq<string>, n: nat,
                                        replies: seq<Option<string>>)
    requires n <= |prompts|
    ensures var out := BatchPrefix(apiKey, prompts, n, replies);
            && (out.result.Ok? <==> (n == 0 || HasApiKey(apiKey)) && AllSucceed(replies, 0, 2 * n))
            && (out.result.Ok? ==>
                  && |out.calls| == 2 * n
                  && |out.result.value| == n
                  && forall i :: 0 <= i < n ==>
                       out.result.value[i] == BatchRecord(prompts[i], Reply(replies, 2 * i).value,
                                                          Reply(replies, 2 * i + 1).value))
            && (out.result.Err? ==>
                  out.result.error == (if HasApiKey(apiKey) then GenerationFailed else MissingApiKey))
    decreases n
  {
    if n > 0 {
      BatchOutcome(apiKey, prompts, n - 1, replies);
      var prev := BatchPrefix(apiKey, prompts, n - 1, replies);
      var out := BatchPrefix(apiKey, prompts, n, replies);
      if prev.result.Ok? {
        var pair := ReflectAndImprove(apiKey, Plain(prompts[n - 1]), replies, |prev.calls|);
        if pair.result.Ok? {
          forall i | 0 <= i < n
            ensures out.result.value[i] == BatchRecord(prompts[i], Reply(replies, 2 * i).value,
                                                       Reply(replies, 2 * i + 1).value)
          {
            if i < n - 1 {
              assert out.result.value[i] == prev.result.value[i];
            }
          }
        }
      } else if HasApiKey(apiKey) {
        assert !AllSucceed(replies, 0, 2 * (n - 1));
      }
    }
  }
}
