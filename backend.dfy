/** `get_ollama_response`: the prompt sent to the model process and what is
    made of the process's result. The process itself is an oracle. */
module Backend {
  import opened Text

  /** What the finished `ollama run` process hands back. */
  datatype RunResult = RunResult(returncode: int, stdout: string)

  /** One call of the model process: it completes, or raising inside the call
      produces an exception whose `str(e)` is `message`. */
  datatype Outcome = Completed(result: RunResult) | Raised(message: string)

  /** The model process, seen from the program: prompt in, outcome out. */
  type Oracle = string -> Outcome

  const BrevitySuffix: string := "\n\nPlease keep your response brief and concise."
  const ConnectionFallback: string := "I'm having trouble connecting to the AI. Try asking again!"
  const ErrorPrefix: string := "Error: "

  /** Replies of this many characters or fewer are not trusted. */
  const MinTrusted: nat := 5

  /** The f-string prompt: the user's text, then the brevity request. */
  function BuildPrompt(userInput: string): string {
    userInput + BrevitySuffix
  }

  /** The user's text, recovered from a prompt. */
  function PromptUserText(prompt: string): string
    requires |prompt| >= |BrevitySuffix|
  {
    prompt[..|prompt| - |BrevitySuffix|]
  }

  /** The prompt carries the user's text unchanged, recoverably, and always
      ends with the brevity request. */
  lemma BuildPromptRoundTrip(userInput: string)
    ensures |BuildPrompt(userInput)| == |userInput| + |BrevitySuffix|
    ensures BuildPrompt(userInput)[|userInput|..] == BrevitySuffix
    ensures PromptUserText(BuildPrompt(userInput)) == userInput
  {
    var p := BuildPrompt(userInput);
    assert p[..|p| - |BrevitySuffix|] == userInput;
  }

  /** When the process's reply is trusted. */
  predicate Trusted(r: RunResult) {
    r.returncode == 0 && |Strip(r.stdout)| > MinTrusted
  }

  /** The check on a completed process, written as the code has it: a
      successful exit with non-blank output, then the length test. */
  function AcceptResult(r: RunResult): (reply: string)
    ensures Trusted(r) ==> reply == Strip(r.stdout)
    ensures !Trusted(r) ==> reply == ConnectionFallback
  {
    if r.returncode == 0 && Strip(r.stdout) != [] then
      var response := Strip(r.stdout);
      if |response| > MinTrusted then response else ConnectionFallback
    else
      ConnectionFallback
  }

  /** The length threshold is sharp: five stripped characters are refused,
      six are returned as they are. */
  lemma AcceptThreshold(r: RunResult)
    requires r.returncode == 0
    ensures |Strip(r.stdout)| == 5 ==> AcceptResult(r) == ConnectionFallback
    ensures |Strip(r.stdout)| == 6 ==> AcceptResult(r) == Strip(r.stdout)
  {
  }

  /** A failed exit is refused whatever the output. */
  lemma AcceptNeedsSuccess(r: RunResult)
    requires r.returncode != 0
    ensures AcceptResult(r) == ConnectionFallback
  {
  }

  /** Whatever the process did, the reply handed on is longer than the
      threshold and carries no surrounding whitespace. */
  lemma AcceptedReplyShape(r: RunResult)
    ensures |AcceptResult(r)| > MinTrusted
    ensures Strip(AcceptResult(r)) == AcceptResult(r)
  {
    if Trusted(r) {
      StripIdempotent(r.stdout);
    } else {
      FallbackStripped();
    }
  }

  lemma FallbackStripped()
    ensures Strip(ConnectionFallback) == ConnectionFallback
  {
    var head, tail := "I'm having trouble connecting", " to the AI. Try asking again!";
    assert ConnectionFallback == head + tail;
    assert ConnectionFallback[0] == head[0] == 'I';
    assert ConnectionFallback[|ConnectionFallback| - 1] == tail[|tail| - 1] == '!';
    StripUnpadded(ConnectionFallback);
  }

  /** `get_ollama_response(user_input)`: one call of the process with the
      built prompt; a raised failure becomes text and never escapes. */
  function GetResponse(userInput: string, backend: Oracle): (reply: string)
    ensures backend(BuildPrompt(userInput)).Completed? ==>
      reply == AcceptResult(backend(BuildPrompt(userInput)).result)
    ensures backend(BuildPrompt(userInput)).Raised? ==>
      reply == ErrorPrefix + backend(BuildPrompt(userInput)).message
  {
    match backend(BuildPrompt(userInput))
    case Completed(r) => AcceptResult(r)
    case Raised(m) => ErrorPrefix + m
  }

  /** The reply depends on the user's text only through the prompt. */
  lemma ResponseFollowsPrompt(u1: string, u2: string, backend: Oracle)
    requires backend(BuildPrompt(u1)) == backend(BuildPrompt(u2))
    ensures GetResponse(u1, backend) == GetResponse(u2, backend)
  {
  }

  /** Every reply is text worth rendering: never empty. */
  lemma ResponseNonEmpty(userInput: string, backend: Oracle)
    ensures |GetResponse(userInput, backend)| > 0
  {
    if backend(BuildPrompt(userInput)).Completed? {
      AcceptedReplyShape(backend(BuildPrompt(userInput)).result);
    }
  }
}
