/** What the terminal front-end writes while presenting: the typewriter
    renderer and the spinner's frames. Delays, flushing and the spinner's
    thread are not part of this model; only what is written, in order. */
module Render {

  /** What `typewriter_effect(text)` leaves on standard output: the text, then
      the newline of the closing `print()`. */
  function Typed(text: string): string {
    text + "\n"
  }

  /** `typewriter_effect`: one character written per step, in order, then one
      newline. */
  method Typewriter(text: string) returns (written: string)
    ensures |written| == |text| + 1
    ensures forall k :: 0 <= k < |text| ==> written[k] == text[k]
    ensures written[|text|] == '\n'
    ensures written == Typed(text)
  {
    written := [];
    for i := 0 to |text|
      invariant written == text[..i]
    {
      written := written + [text[i]];
    }
    written := written + "\n";
  }

  /** What the renderer writes for the empty text: the newline alone. */
  lemma TypedEmpty()
    ensures Typed([]) == "\n"
  {
  }

  /** The renderer's output ends with its newline and holds the text before it. */
  lemma TypedSplit(text: string)
    ensures Typed(text)[..|text|] == text && Typed(text)[|text|..] == "\n"
  {
  }

  /** `spinner_frames` */
  const SpinnerFrames: seq<string> := ["|", "/", "-", "\\"]

  /** The line `animate` writes at tick `i`: a carriage return, the label and
      the frame `spinner_frames[i % len(spinner_frames)]`. */
  function FrameLine(i: nat): string {
    "\rthinking " + SpinnerFrames[i % |SpinnerFrames|]
  }

  /** `animate`'s `while thinking` loop, stopped after `ticks` rounds: the
      frame counter starts at 0 and goes up by one per line written. */
  method Animate(ticks: nat) returns (lines: seq<string>)
    ensures |lines| == ticks
    ensures forall k :: 0 <= k < ticks ==> lines[k] == FrameLine(k)
  {
    lines := [];
    var i := 0;
    while i < ticks
      invariant 0 <= i <= ticks
      invariant |lines| == i
      invariant forall k :: 0 <= k < i ==> lines[k] == FrameLine(k)
    {
      lines := lines + [FrameLine(i)];
      i := i + 1;
    }
  }

  /** The frames cycle with period four... */
  lemma FramesPeriodic(i: nat)
    ensures FrameLine(i + |SpinnerFrames|) == FrameLine(i)
  {
  }

  /** ...and two consecutive ticks never show the same frame. */
  lemma FramesAdvance(i: nat)
    ensures FrameLine(i + 1) != FrameLine(i)
  {
    var a, b := FrameLine(i), FrameLine(i + 1);
    assert a[10] == SpinnerFrames[i % 4][0];
    assert b[10] == SpinnerFrames[(i + 1) % 4][0];
  }

  /** Every frame of the table is shown within any four consecutive ticks. */
  lemma FramesAllShown(start: nat, f: nat) returns (d: nat)
    requires f < |SpinnerFrames|
    ensures d < |SpinnerFrames| && FrameLine(start + d) == "\rthinking " + SpinnerFrames[f]
  {
    d := (f - start % 4 + 4) % 4;
    assert (start + d) % 4 == f;
  }
}
