/** `main`: the terminal session. Each line read is stripped and sorted into
    an exit command, a blank line, or a request that is sent to the model
    process once and whose reply is rendered by the typewriter. */
module Session {
  import opened Text
  import opened Backend
  import opened Render

  const Banner: string :=
    "🔄 Starting HELIOS CTF Assistant...\n" + "\n🔥 HELIOS CTF Assistant Ready!\n"
    + "⚡ Simple conversational mode with Ollama LLM\n\n"
  const YouPrompt: string := "🎯 You: "
  const Farewell: string := "👋 Happy hacking! See you next time!"
  const InterruptNotice: string := "\n\n👋 Caught Ctrl+C - Exiting HELIOS...\n"
  const ExitWords: seq<string> := ["exit", "quit", "q"]

  /** One event at the `input()` prompt: a line typed, or Ctrl+C. */
  datatype Input = Line(raw: string) | Interrupt

  /** How the loop reads a line. */
  datatype Command = Quit | Blank | Request(text: string)

  /** The strip, then the exit test on the lower-cased line, then the empty
      test, in the code's order. */
  function Classify(raw: string): Command {
    var line := Strip(raw);
    if Lower(line) in ExitWords then Quit
    else if line == [] then Blank
    else Request(line)
  }

  /** The input ends the session. */
  predicate Stops(x: Input) {
    x.Interrupt? || Classify(x.raw) == Quit
  }

  /** A text the loop hands to the model: non-empty, already stripped, and
      not an exit word in any case. */
  predicate IsRequestText(t: string) {
    t != [] && Strip(t) == t && Lower(t) !in ExitWords
  }

  /** What one round of the loop writes (the spinner's lines aside), the
      prompts it sends to the model process, and whether it ends the session. */
  datatype Turn = Turn(out: string, prompts: seq<string>, stops: bool)

  /** One round of the `while True` loop on one input. */
  function TurnOf(x: Input, backend: Oracle): Turn {
    match x
    case Interrupt => Turn(YouPrompt + InterruptNotice, [], true)
    case Line(raw) =>
      match Classify(raw)
      case Quit => Turn(YouPrompt + Typed(Farewell), [], true)
      case Blank => Turn(YouPrompt, [], false)
      case Request(text) =>
        Turn(YouPrompt + Typed(GetResponse(text, backend)) + "\n", [BuildPrompt(text)], false)
  }

  /** Everything the session writes after the banner, the prompts sent to
      the model process in order, and whether it ended by an exit command or
      Ctrl+C rather than by running out of input. */
  datatype Transcript = Transcript(out: string, prompts: seq<string>, exited: bool)

  /** The loop's behaviour on a sequence of inputs: rounds until one ends
      the session or the inputs run out. */
  function SessionOf(inputs: seq<Input>, backend: Oracle): Transcript
    decreases |inputs|
  {
    if inputs == [] then Transcript([], [], false)
    else
      var turn := TurnOf(inputs[0], backend);
      if turn.stops then Transcript(turn.out, turn.prompts, true)
      else
        var rest := SessionOf(inputs[1..], backend);
        Transcript(turn.out + rest.out, turn.prompts + rest.prompts, rest.exited)
  }

  /** The body of `main`'s loop for one input: prompt, strip, exit test,
      empty test, then one call of the model and the typewriter. */
  method TakeTurn(x: Input, backend: Oracle) returns (turn: Turn)
    ensures turn == TurnOf(x, backend)
  {
    var out := YouPrompt;
    match x
    case Interrupt =>
      out := out + InterruptNotice;
      return Turn(out, [], true);
    case Line(raw) =>
      var userInput := Strip(raw);
      if Lower(userInput) in ExitWords {
        var written := Typewriter(Farewell);
        return Turn(out + written, [], true);
      }
      if userInput == [] {
        return Turn(out, [], false);
      }
      var prompt := BuildPrompt(userInput);
      var response := GetResponse(userInput, backend);
      var written := Typewriter(response);
      out := out + written + "\n";
      return Turn(out, [prompt], false);
  }

  /** `main`: the banner, then rounds of the loop until one breaks out of it
      or the inputs run out. */
  method RunSession(inputs: seq<Input>, backend: Oracle) returns (t: Transcript)
    ensures t.out == Banner + SessionOf(inputs, backend).out
    ensures t.prompts == SessionOf(inputs, backend).prompts
    ensures t.exited == SessionOf(inputs, backend).exited
  {
    var out := Banner;
    var prompts: seq<string> := [];
    var i := 0;
    ghost var whole := SessionOf(inputs, backend);
    assert inputs[0..] == inputs;
    while i < |inputs|
      invariant 0 <= i <= |inputs|
      invariant Banner + whole.out == out + SessionOf(inputs[i..], backend).out
      invariant whole.prompts == prompts + SessionOf(inputs[i..], backend).prompts
      invariant whole.exited == SessionOf(inputs[i..], backend).exited
    {
      ghost var xs := inputs[i..];
      assert xs[1..] == inputs[i + 1..];
      assert xs[0] == inputs[i];
      var turn := TakeTurn(inputs[i], backend);
      SessionStep(xs, backend);
      ghost var rest := SessionOf(inputs[i + 1..], backend);
      ConcatAssoc(out, turn.out, rest.out);
      ConcatAssoc(prompts, turn.prompts, rest.prompts);
      out := out + turn.out;
      prompts := prompts + turn.prompts;
      if turn.stops {
        return Transcript(out, prompts, true);
      }
      i := i + 1;
    }
    assert inputs[i..] == [];
    t := Transcript(out, prompts, false);
  }

  /** Concatenation regroups freely. */
  lemma ConcatAssoc<T>(a: seq<T>, b: seq<T>, c: seq<T>)
    ensures a + (b + c) == (a + b) + c
  {
  }

  /** One round of the loop, then the rest of the session. */
  lemma SessionStep(xs: seq<Input>, backend: Oracle)
    requires xs != []
    ensures TurnOf(xs[0], backend).stops ==>
      SessionOf(xs, backend) == Transcript(TurnOf(xs[0], backend).out, TurnOf(xs[0], backend).prompts, true)
    ensures !TurnOf(xs[0], backend).stops ==>
      SessionOf(xs, backend) == Transcript(
        TurnOf(xs[0], backend).out + SessionOf(xs[1..], backend).out,
        TurnOf(xs[0], backend).prompts + SessionOf(xs[1..], backend).prompts,
        SessionOf(xs[1..], backend).exited)
  {
  }

  // Classification

  /** An exit word in any case, with any whitespace around it, quits. */
  lemma ExitWordQuits(a: string, w: string, b: string)
    requires AllSpace(a) && AllSpace(b)
    requires Lower(w) in ExitWords
    ensures Classify(a + w + b) == Quit
  {
    LowerSpec(w);
    assert w != [] && LowerChar(w[0]) == Lower(w)[0] && LowerChar(w[|w| - 1]) == Lower(w)[|w| - 1];
    StripPadded(a, w, b);
  }

  /** A blank line is one made of whitespace alone. */
  lemma ClassifyBlank(raw: string)
    ensures Classify(raw) == Blank <==> AllSpace(raw)
  {
    StripShape(raw);
  }

  /** What reaches the model is the stripped line, and it is a request text. */
  lemma ClassifyRequest(raw: string)
    requires Classify(raw).Request?
    ensures Classify(raw).text == Strip(raw) && IsRequestText(Classify(raw).text)
  {
    StripIdempotent(raw);
  }

  // The session as a whole

  /** The position of the first input that ends the session, or the number
      of inputs when none does. */
  function FirstStop(inputs: seq<Input>): (n: nat)
    ensures n <= |inputs|
    ensures forall k :: 0 <= k < n ==> !Stops(inputs[k])
    ensures n < |inputs| ==> Stops(inputs[n])
  {
    if inputs == [] || Stops(inputs[0]) then 0 else 1 + FirstStop(inputs[1..])
  }

  /** The texts of the request lines among `inputs`, in order. */
  function RequestTexts(inputs: seq<Input>): (texts: seq<string>)
    ensures |texts| <= |inputs|
    ensures forall k :: 0 <= k < |texts| ==> IsRequestText(texts[k])
  {
    if inputs == [] then []
    else if inputs[0].Line? && Classify(inputs[0].raw).Request? then
      ClassifyRequest(inputs[0].raw);
      [Classify(inputs[0].raw).text] + RequestTexts(inputs[1..])
    else RequestTexts(inputs[1..])
  }

  function PromptsFor(texts: seq<string>): seq<string> {
    if texts == [] then [] else [BuildPrompt(texts[0])] + PromptsFor(texts[1..])
  }

  /** The session ends by itself exactly when some input is an exit command
      or Ctrl+C. */
  lemma {:induction false} SessionExited(inputs: seq<Input>, backend: Oracle)
    ensures SessionOf(inputs, backend).exited <==> FirstStop(inputs) < |inputs|
  {
    if inputs != [] && !Stops(inputs[0]) {
      SessionExited(inputs[1..], backend);
    }
  }

  /** The model process is called exactly once per request line read before
      the session stops, in order, with that line's prompt; never for blank
      lines, exit commands or anything after them. */
  lemma {:induction false} SessionPrompts(inputs: seq<Input>, backend: Oracle)
    ensures SessionOf(inputs, backend).prompts == PromptsFor(RequestTexts(inputs[..FirstStop(inputs)]))
  {
    var n := FirstStop(inputs);
    if inputs == [] || Stops(inputs[0]) {
      assert inputs[..n] == [];
    } else {
      SessionPrompts(inputs[1..], backend);
      assert inputs[..n][1..] == inputs[1..][..n - 1];
    }
  }

  /** Inputs after the one that ends the session are never read. */
  lemma {:induction false} SessionIgnoresAfterExit(inputs: seq<Input>, more: seq<Input>, backend: Oracle)
    requires SessionOf(inputs, backend).exited
    ensures SessionOf(inputs + more, backend) == SessionOf(inputs, backend)
  {
    assert inputs != [];
    assert (inputs + more)[0] == inputs[0];
    assert (inputs + more)[1..] == inputs[1..] + more;
    if !Stops(inputs[0]) {
      SessionIgnoresAfterExit(inputs[1..], more, backend);
    }
  }

  /** `s` ends with `suffix`. */
  predicate EndsWith(s: string, suffix: string) {
    |suffix| <= |s| && s[|s| - |suffix|..] == suffix
  }

  lemma EndsWithPrepend(a: string, s: string, suffix: string)
    requires EndsWith(s, suffix)
    ensures EndsWith(a + s, suffix)
  {
    assert (a + s)[|a + s| - |suffix|..] == s[|s| - |suffix|..];
  }

  /** A round stops the session exactly on an exit command or Ctrl+C, and
      then writes the goodbye after the prompt. */
  lemma TurnStops(x: Input, backend: Oracle)
    ensures TurnOf(x, backend).stops == Stops(x)
    ensures x.Interrupt? ==> TurnOf(x, backend).out == YouPrompt + InterruptNotice
    ensures Stops(x) && x.Line? ==> TurnOf(x, backend).out == YouPrompt + Typed(Farewell)
  {
  }

  /** A session that ends by itself writes its goodbye last: the farewell
      through the typewriter after an exit command, the Ctrl+C notice after
      an interrupt. */
  lemma {:induction false} SessionEndsWithGoodbye(inputs: seq<Input>, backend: Oracle)
    requires FirstStop(inputs) < |inputs|
    ensures inputs[FirstStop(inputs)].Line? ==> EndsWith(SessionOf(inputs, backend).out, Typed(Farewell))
    ensures inputs[FirstStop(inputs)].Interrupt? ==> EndsWith(SessionOf(inputs, backend).out, InterruptNotice)
  {
    SessionStep(inputs, backend);
    TurnStops(inputs[0], backend);
    var out := SessionOf(inputs, backend).out;
    if Stops(inputs[0]) {
      if inputs[0].Line? {
        assert out[|out| - |Typed(Farewell)|..] == Typed(Farewell);
      } else {
        assert out[|out| - |InterruptNotice|..] == InterruptNotice;
      }
    } else {
      assert inputs[FirstStop(inputs)] == inputs[1..][FirstStop(inputs[1..])];
      SessionEndsWithGoodbye(inputs[1..], backend);
      var rest := SessionOf(inputs[1..], backend).out;
      if inputs[FirstStop(inputs)].Line? {
        EndsWithPrepend(TurnOf(inputs[0], backend).out, rest, Typed(Farewell));
      } else {
        EndsWithPrepend(TurnOf(inputs[0], backend).out, rest, InterruptNotice);
      }
    }
  }

  /** A blank line costs one prompt and nothing else. */
  lemma BlankLineReprompts(raw: string, rest: seq<Input>, backend: Oracle)
    requires AllSpace(raw)
    ensures SessionOf([Line(raw)] + rest, backend).out == YouPrompt + SessionOf(rest, backend).out
    ensures SessionOf([Line(raw)] + rest, backend).prompts == SessionOf(rest, backend).prompts
    ensures SessionOf([Line(raw)] + rest, backend).exited == SessionOf(rest, backend).exited
  {
    ClassifyBlank(raw);
    assert ([Line(raw)] + rest)[1..] == rest;
  }

  /** The round on "hello", with the model process answering "Hi there!"
      and a newline: one prompt, the reply typed out and a blank line. */
  lemma HelloTurn(backend: Oracle)
    requires backend(BuildPrompt("hello")) == Completed(RunResult(0, "Hi there!\n"))
    ensures TurnOf(Line("hello"), backend) == Turn(YouPrompt + "Hi there!\n\n", [BuildPrompt("hello")], false)
  {
    StripUnpadded("hello");
    LowerSpec("hello");
    assert Classify("hello") == Request("hello");
    StripPadded([], "Hi there!", "\n");
    assert [] + "Hi there!" + "\n" == "Hi there!\n";
    assert GetResponse("hello", backend) == "Hi there!";
  }

  /** The round on "quit": the typed farewell, and the session stops. */
  lemma QuitTurn(backend: Oracle)
    ensures TurnOf(Line("quit"), backend) == Turn(YouPrompt + Typed(Farewell), [], true)
  {
    StripUnpadded("quit");
    LowerSpec("quit");
    assert Lower("quit") == "quit";
  }

  /** "hello" answered with "Hi there!", then "quit": one call with the
      prompt for "hello", the reply typed out, then the farewell. */
  lemma HelloScenario()
    ensures var backend := (p: string) => Completed(RunResult(0, "Hi there!\n"));
      SessionOf([Line("hello"), Line("quit")], backend)
      == Transcript(YouPrompt + "Hi there!\n\n" + YouPrompt + Typed(Farewell), [BuildPrompt("hello")], true)
  {
    var backend := (p: string) => Completed(RunResult(0, "Hi there!\n"));
    var inputs := [Line("hello"), Line("quit")];
    HelloTurn(backend);
    QuitTurn(backend);
    assert inputs[1..] == [Line("quit")];
    SessionStep(inputs, backend);
    SessionStep(inputs[1..], backend);
    ConcatAssoc(YouPrompt + "Hi there!\n\n", YouPrompt, Typed(Farewell));
  }
}
