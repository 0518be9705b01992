/** What the core sees of the model endpoints and of the clock.
 *
 *  `ModelManager.generate_response(prompt, **kwargs)` in model_manager.py
 *  talks to a hosted model over the network. Here a model manager is an
 *  object that records every call made to it and answers the n-th call with
 *  `respond(n, request)`, a function fixed when it is created: nothing is
 *  assumed about what a model answers, only that the answer depends on
 *  nothing but the call. The same holds for `time.time()` and `Clock`.
 */
module Provider {
  import opened Records

  /** The judge prompt: the custom template given to the evaluator when it is
   *  non-blank, otherwise the built-in one. */
  datatype Template = DefaultTemplate | CustomTemplate(text: string)

  /** A prompt: the user's text, or a judge prompt kept as the template and the
   *  three values `str.format` substitutes into it. */
  datatype Prompt =
    | UserPrompt(text: string)
    | JudgeQuery(template: Template, taskType: string, expectedOutput: string, response: string)

  datatype Request = Request(prompt: Prompt, options: Record)

  /** What `generate_response` gives: a text, or `ProviderError`, which
   *  over-approximates a failed call (the clients return a text even then). */
  datatype Reply = Generated(text: string) | ProviderError

  class ModelManager {
    /** The answer to the n-th call, made with the given request. */
    const respond: (nat, Request) -> Reply
    /** The calls made so far, oldest first. */
    var calls: seq<Request>

    constructor (respond: (nat, Request) -> Reply)
      ensures this.respond == respond && calls == []
    {
      this.respond := respond;
      calls := [];
    }

    /** `generate_response(prompt, **options)` */
    method GenerateResponse(prompt: Prompt, options: Record) returns (r: Reply)
      modifies this`calls
      ensures calls == old(calls) + [Request(prompt, options)]
      ensures r == respond(|old(calls)|, Request(prompt, options))
    {
      r := respond(|calls|, Request(prompt, options));
      calls := calls + [Request(prompt, options)];
    }
  }

  class Clock {
    /** The time the n-th reading returns, in seconds. */
    const reading: nat -> real
    var readings: nat

    constructor (reading: nat -> real)
      ensures this.reading == reading && readings == 0
    {
      this.reading := reading;
      readings := 0;
    }

    /** `time.time()` */
    method Time() returns (now: real)
      modifies this`readings
      ensures readings == old(readings) + 1 && now == reading(old(readings))
    {
      now := reading(readings);
      readings := readings + 1;
    }
  }
}
