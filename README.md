# HELIOS terminal chat front-end, modelled in Dafny

HELIOS is a small terminal chat program (`main.py`). It reads lines from the
user, sends each real request to a local `ollama` model process, and types the
reply back one character at a time while a spinner shows that it is thinking.
This project models the decision logic inside that plumbing and proves what it
does:

- `Text` (`text.dfy`): Python's `str.strip()`, `str.lower()` and the substring
  test `w in s`. `Strip` removes exactly the code points Python's `isspace()`
  accepts. The substring test is proved equal to "occurs at some index".
- `Backend` (`backend.dfy`): `get_ollama_response`. The prompt is the user's
  text plus a fixed brevity request. A completed process is accepted only with
  exit status 0 and more than five characters of stripped output; otherwise
  the fixed fallback sentence is returned. A failure raised during the call
  becomes `"Error: " + message`. The model process is an oracle: a total
  function from prompt to `Completed(RunResult(returncode, stdout))` or
  `Raised(message)`.
- `QuickFallback` (`quick_fallback.dfy`): `get_quick_fallback`, the ordered,
  case-insensitive keyword table (greeting, food, music, identity). It is
  proved equal to a "first matching category" reference rule.
- `Render` (`render.dfy`): `typewriter_effect` as the characters it writes, and
  the frame choice of the spinner's `animate` loop.
- `Session` (`session.dfy`): `main`. The banner is followed by the `while True`
  loop over a sequence of inputs, each a typed line or Ctrl+C. A line is
  stripped and then sorted into exit command, blank line or request. A request
  costs exactly one backend call, and its reply is typed out followed by a
  blank line. `RunSession` is the loop. It is proved equal to the recursive
  specification `SessionOf`, and the lemmas about the session are stated over
  `SessionOf`.

On Ctrl+C, `main.py` prints its notice with a plain `print` (main.py:133),
not through the typewriter. A failure raised during the backend call is not
propagated: `get_ollama_response` turns it into the text `"Error: " + str(e)`
(main.py:100-103), which is then typed out like any other reply.

## Model

| member | source | states |
|---|---|---|
| Text.TrimStartSpec | main.py:117 | the left half of `strip` keeps a suffix that is empty or starts with a non-space, and drops only whitespace |
| Text.TrimEndSpec | main.py:117 | the right half of `strip` keeps a prefix that is empty or ends with a non-space, and drops only whitespace |
| Text.TrimStartPadded | main.py:117 | leading whitespace before a non-space start is removed exactly |
| Text.TrimEndPadded | main.py:117 | trailing whitespace after a non-space end is removed exactly |
| Text.StripPadded | main.py:117 | `strip` of whitespace + core + whitespace is the core, for any core that neither starts nor ends with whitespace; this determines `strip` |
| Text.StripShape | main.py:117-124 | the result of `strip` is no longer than its input, neither starts nor ends with whitespace, and is empty exactly when the input is all whitespace |
| Text.StripUnpadded | main.py:93 | a string without surrounding whitespace is its own strip |
| Text.StripIdempotent | main.py:93 | stripping twice is stripping once |
| Text.LowerSpec | main.py:51 | `lower` keeps the length and maps each character on its own (ASCII letters to lower case) |
| Text.LowerIdempotent | main.py:51 | lower-casing twice is lower-casing once |
| Text.ContainsMeansOccurs | main.py:54 | the computed substring test holds exactly when the word occurs in the text at some index |
| Text.AnyContainsMeans | main.py:54 | `any(w in s for w in words)` holds exactly when some word of the list occurs in the text |
| Backend.BuildPromptRoundTrip | main.py:78 | the prompt is the user's text followed by the brevity request, and the user's text can be recovered from it |
| Backend.AcceptResult | main.py:92-98 | the stripped output is returned when the exit status is 0 and it has more than 5 characters; otherwise the fallback sentence is returned |
| Backend.AcceptThreshold | main.py:92-98 | with exit status 0, 5 stripped characters give the fallback and 6 are returned as they are |
| Backend.AcceptNeedsSuccess | main.py:92-98 | a non-zero exit status gives the fallback whatever the output |
| Backend.AcceptedReplyShape | main.py:92-98 | every reply of a completed process is longer than 5 characters and has no surrounding whitespace |
| Backend.FallbackStripped | main.py:98 | the fallback sentence has no surrounding whitespace |
| Backend.GetResponse | main.py:71-103 | the backend is called once with the built prompt; a completed call gives `AcceptResult` of its result (the stripped output when trusted, else the fallback sentence), and a raised failure gives `"Error: "` followed by its message, so nothing escapes |
| Backend.ResponseFollowsPrompt | main.py:78-103 | the reply depends on the user's text only through the backend's outcome for the built prompt |
| Backend.ResponseNonEmpty | main.py:92-103 | every reply handed to the renderer is non-empty |
| QuickFallback.FirstMatch | main.py:51-69 | the reference rule returns the position of a matching category with no earlier match, or nothing exactly when no category matches |
| QuickFallback.QuickFallbackIsFirstMatch | main.py:49-69 | the chain of four tests returns the reply of the first matching category in the order greeting, food, music, identity |
| QuickFallback.QuickFallbackNone | main.py:51-69 | there is no canned reply exactly when no keyword of any category occurs in the lower-cased input |
| QuickFallback.QuickFallbackCaseInsensitive | main.py:51 | an input and its lower-cased form get the same reply |
| QuickFallback.KeywordSelectsCategory | main.py:54-67 | a keyword of a category occurring anywhere in the lower-cased input selects that category's reply when no earlier category matches |
| QuickFallback.GreetingBeforeFood | main.py:54-59 | "Hi, DINNER?" gets the greeting reply, not the food reply |
| QuickFallback.KeywordInsideWord | main.py:54 | matching is by substring: "THIS" contains "hi" and gets the greeting reply |
| QuickFallback.NoKeywordNoReply | main.py:69 | "OK" matches no keyword and gets no canned reply |
| Render.Typewriter | main.py:7-13 | one character of the text per step, in order, then exactly one newline: `|text| + 1` characters in all |
| Render.TypedEmpty | main.py:9-13 | the empty text writes only the newline |
| Render.TypedSplit | main.py:9-13 | the rendered output is the text followed by a single newline |
| Render.Animate | main.py:21-27 | after `ticks` rounds, line `k` shows frame `spinner_frames[k % 4]` |
| Render.FramesPeriodic | main.py:19-24 | the spinner frames repeat with period 4 |
| Render.FramesAdvance | main.py:19-27 | two consecutive ticks never show the same frame |
| Render.FramesAllShown | main.py:19-27 | every frame is shown within any four consecutive ticks |
| Session.TakeTurn | main.py:116-130 | one round of the loop writes the prompt, then the Ctrl+C notice, the typed farewell, nothing more, or the typed reply and a blank line, and sends at most the one prompt built from the stripped line |
| Session.RunSession | main.py:105-137 | the loop writes the banner followed by the session's output, sends exactly the session's prompts in order, and reports whether an exit command or Ctrl+C ended it |
| Session.SessionStep | main.py:115-137 | a session is one round followed, unless that round stops, by the session on the remaining inputs |
| Session.ExitWordQuits | main.py:117-121 | `exit`, `quit` or `q` in any letter case, with any surrounding whitespace, is an exit command |
| Session.ClassifyBlank | main.py:117-124 | a line is blank exactly when it is all whitespace |
| Session.ClassifyRequest | main.py:117-127 | a request carries the stripped line, which is non-empty, already stripped and not an exit word |
| Session.TurnStops | main.py:119-134 | a round ends the session exactly on an exit command or Ctrl+C, writing the farewell or the notice after the prompt |
| Session.FirstStop | main.py:115-134 | the first input that ends the session: every earlier input is not an exit command or Ctrl+C |
| Session.RequestTexts | main.py:117-127 | the request texts among the inputs are no more than the inputs, and each is a valid request text |
| Session.SessionExited | main.py:115-134 | the session ends by itself exactly when some input is an exit command or Ctrl+C |
| Session.SessionPrompts | main.py:119-127 | the backend is called once per request line before the session stops, in order, with that line's prompt; never for blank lines, exit commands or later inputs |
| Session.SessionIgnoresAfterExit | main.py:119-134 | inputs after the one that ends the session are never read |
| Session.SessionEndsWithGoodbye | main.py:119-134 | a session that ends by itself writes the typed farewell last after an exit command, or the Ctrl+C notice last after an interrupt |
| Session.BlankLineReprompts | main.py:123-124 | a blank line writes only the next prompt: no backend call, no rendering |
| Session.HelloTurn | main.py:117-130 | with the model process answering "Hi there!" and a newline, the round on "hello" sends the prompt for "hello" once and writes the prompt, "Hi there!" typed out and a blank line |
| Session.QuitTurn | main.py:117-121 | the round on "quit" writes the prompt and the typed farewell, sends nothing and stops the session |
| Session.HelloScenario | main.py:117-130 | "hello" answered by "Hi there!", then "quit": one call with the prompt for "hello", the reply typed out and a blank line, then the typed farewell |

## Left out

- The spinner's thread, its `thinking` stop flag and the race between `stop()` and `animate` (main.py:21-35) are concurrency. `Animate` takes the number of rounds the loop makes before it sees the flag as a parameter.
- The spinner's `\rthinking …` lines are written by the spinner thread at times that depend on the clock, so they are not part of the session's output in `Session`. The `\rthought for … seconds` line is written by `stop()` (main.py:33-38) on the calling thread, at a fixed point of every request round: after the model process returns (main.py:90) or raises (main.py:102), and before the reply is typed. It is left out of `TurnOf` and `SessionOf` because its content is the elapsed wall-clock time formatted as a float, not because of its timing.
- `time.sleep` delays and `sys.stdout.flush` calls leave no trace in the written text.
- `ensure_ollama_running` (main.py:42-47) is a best-effort external process whose result and captured output are discarded. It writes nothing, so the model leaves it out.
- The `ollama run llama3.2:1b` command line, Windows `creationflags` and UTF-8 decoding with `errors='ignore'` are process and codec details. The oracle receives the prompt and returns the decoded output.
- The oracle is a function, so two identical prompts get the same outcome in the model. The real model process need not answer identical prompts the same way.
- `Lower` lower-cases ASCII letters only. Python's `str.lower()` also maps non-ASCII letters, and a few of them map to ASCII (for example `İ` becomes `i` plus a combining dot). The model does not capture that.
- Ctrl+C is modelled only at the `input()` prompt. In `main.py` a Ctrl+C during the backend call or while the reply is typed also reaches the `KeyboardInterrupt` handler. Those partial outputs are not modelled.
- Running out of input ends the modelled session with `exited` false. In `main.py`, `input()` at end of file raises `EOFError`. The generic `except Exception` handler (main.py:135-137) catches it, prints an error line and loops again, forever. The model does not include that handler, and nothing else in the modelled loop raises.
- In `get_ollama_response`, an exception raised by `thinking_animation()` itself would leave `stop_thinking` unbound in the handler. Only failures of the model process call are modelled.
- `get_quick_fallback` is never called by `main`. It is modelled on its own.
