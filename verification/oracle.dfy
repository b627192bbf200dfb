/** The generation service, seen from the agent: the prompts it is sent, the
    replies it gives (consumed in call order), and the agent's error kinds. */
module Oracle {

  datatype Option<T> = None | Some(value: T)

  /** What a generation request asks for. The wording of each template is not
      modelled; each kind records the texts it embeds. */
  datatype Prompt =
    | Plain(text: string)                        // a caller's prompt, sent as it is
    | Critique(response: string)                 // "review ... and suggest improvements" + the response
    | Refine(topic: string, current: string)     // stay-on-topic improvement of the running response
    | Recover(topic: string, current: string)    // stricter retry after a failed validation
    | Compare(initial: string, improved: string) // "compare these two responses"

  datatype Error =
    | MissingApiKey      // the credential lookup found nothing (ValueError)
    | GenerationFailed   // the service call raised

  datatype Result<T> = Ok(value: T) | Err(error: Error)

  /** A result together with the prompts sent to obtain it, in call order. The
      i-th prompt was answered by the i-th reply consumed. */
  datatype Exchange<T> = Exchange(result: Result<T>, calls: seq<Prompt>)

  /** The reply to the call with index `i`: a text, or `None` when the call
      raises. A service whose scripted replies have run out fails. */
  function Reply(replies: seq<Option<string>>, i: nat): Option<string> {
    if i < |replies| then replies[i] else None
  }

  /** Python's `if not api_key`: the key is absent or empty. */
  predicate HasApiKey(apiKey: Option<string>) {
    apiKey.Some? && apiKey.value != ""
  }

  /** The replies with index in [from, to) all succeed. */
  predicate AllSucceed(replies: seq<Option<string>>, from: nat, to: nat) {
    forall i :: from <= i < to ==> Reply(replies, i).Some?
  }
}
