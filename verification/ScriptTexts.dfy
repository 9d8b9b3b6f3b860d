/** Whole script texts: which of them parse, and to what. */
module ScriptTexts {
  import opened Basics
  import opened Texts
  import opened Scripts

  /** Bytes of a character in UTF-8. */
  function Utf8Width(c: char): nat {
    if c < '\U{80}' then 1 else if c < '\U{800}' then 2 else if c < '\U{10000}' then 3 else 4
  }

  function Utf8Length(text: string): nat {
    if text == "" then 0 else Utf8Length(text[..|text| - 1]) + Utf8Width(text[|text| - 1])
  }

  /** Where the first line of `text` ends. */
  function LineEnd(text: string): (n: nat)
    ensures n <= |text|
  {
    if text == "" || text[0] == '\n' then 0 else 1 + LineEnd(text[1..])
  }

  /** A line feed also takes a carriage return before it. */
  function WithoutReturn(line: string): string {
    if line != "" && line[|line| - 1] == '\r' then line[..|line| - 1] else line
  }

  /** The lines of a text; a last line need not end in a line feed. */
  function Lines(text: string): seq<string>
    decreases |text|
  {
    if text == "" then []
    else if LineEnd(text) == |text| then [text]
    else [WithoutReturn(text[..LineEnd(text)])] + Lines(text[LineEnd(text) + 1..])
  }

  /** A text parses exactly when it is within the limits, every line is readable and not all lines are
      skipped; the script is then those lines' steps in order. */
  function ParsedScript(text: string): Outcome<seq<ScriptStep>> {
    var lines := Lines(text);
    if Utf8Length(text) > MAX_TEXT || |lines| > MAX_LINES then Failed(ScriptTooLarge)
    else if exists i | 0 <= i < |lines| :: !Readable(lines[i]) then Failed(MalformedScript)
    else if forall i | 0 <= i < |lines| :: Skipped(lines[i]) then Failed(EmptyScript)
    else Done(StepsOf(lines))
  }

  /** The limits: 64 KiB of text, 1024 lines. */
  lemma TooLargeIff(text: string)
    ensures ParsedScript(text) == Failed(ScriptTooLarge) <==> Utf8Length(text) > 65536 || |Lines(text)| > 1024
  {
    hide Lines, Utf8Length, Readable, Skipped;
  }

  method SplitLines(text: string) returns (lines: seq<string>)
    ensures lines == Lines(text)
  {
    lines := [];
    var rest := text;
    while rest != ""
      invariant lines + Lines(rest) == Lines(text)
      decreases |rest|
    {
      var n := LineEnd(rest);
      if n == |rest| {
        lines := lines + [rest];
        rest := "";
      } else {
        lines := lines + [WithoutReturn(rest[..n])];
        rest := rest[n + 1..];
      }
    }
  }

  /** Every step of the parsed script is parsable. */
  method ParseScript(text: string) returns (r: Outcome<seq<ScriptStep>>)
    ensures r == ParsedScript(text)
    ensures r.Done? ==> 0 < |r.value| <= 1024 && forall i | 0 <= i < |r.value| :: Parsable(r.value[i])
  {
    hide ParseLine, Parsable, Skipped, Lines;
    var lines := SplitLines(text);
    if Utf8Length(text) > MAX_TEXT || |lines| > MAX_LINES {
      return Failed(ScriptTooLarge);
    }
    var steps: seq<ScriptStep> := [];
    for i := 0 to |lines|
      invariant forall j | 0 <= j < i :: Readable(lines[j])
      invariant steps == StepsOf(lines[..i]) && |steps| <= i
      invariant steps == [] <==> forall j | 0 <= j < i :: Skipped(lines[j])
      invariant forall j | 0 <= j < |steps| :: Parsable(steps[j])
    {
      assert lines[..i + 1][..i] == lines[..i];
      if !Skipped(lines[i]) {
        match ParseLine(lines[i]) {
          case None =>
            assert !Readable(lines[i]);
            return Failed(MalformedScript);
          case Some(step) =>
            ParsedIsParsable(lines[i]);
            steps := steps + [step];
        }
      }
    }
    assert lines[..|lines|] == lines;
    if steps == [] {
      return Failed(EmptyScript);
    }
    r := Done(steps);
  }

  // ---------- a written script reads back ----------

  function ScriptText(steps: seq<ScriptStep>): string {
    if steps == [] then "" else Written(steps[0]) + "\n" + ScriptText(steps[1..])
  }

  function WrittenLines(steps: seq<ScriptStep>): seq<string> {
    seq(|steps|, i requires 0 <= i < |steps| => Written(steps[i]))
  }

  /** One line of text: no line feed in it, and no carriage return at its end. */
  predicate IsLine(s: string) {
    (forall i | 0 <= i < |s| :: s[i] != '\n') && (s != "" ==> s[|s| - 1] != '\r')
  }

  lemma {:induction false} LineEndIs(line: string, rest: string)
    requires forall i | 0 <= i < |line| :: line[i] != '\n'
    ensures LineEnd(line + "\n" + rest) == |line|
  {
    var text := line + "\n" + rest;
    if line != "" {
      assert text[1..] == line[1..] + "\n" + rest;
      LineEndIs(line[1..], rest);
    }
  }

  lemma LinesFirst(line: string, rest: string)
    requires IsLine(line)
    ensures Lines(line + "\n" + rest) == [line] + Lines(rest)
  {
    hide LineEnd;
    var text := line + "\n" + rest;
    LineEndIs(line, rest);
    assert text[..|line|] == line && text[|line| + 1..] == rest;
  }

  lemma {:induction false} LineOfWords(words: seq<string>)
    requires AllWords(words)
    ensures forall i | 0 <= i < |Line(words)| :: Line(words)[i] == ' ' || !IsSpace(Line(words)[i])
    ensures words != [] ==> Line(words) != "" && !IsSpace(Line(words)[|Line(words)| - 1])
  {
    hide IsSpace;
    if words != [] {
      assert IsWord(words[0]);
      if |words| > 1 {
        LineOfWords(words[1..]);
      }
    }
  }

  lemma WordsMakeALine(words: seq<string>)
    requires AllWords(words)
    ensures IsLine(Line(words))
  {
    hide Line;
    LineOfWords(words);
    if words == [] {
      NoWordsNoLine();
    }
  }

  lemma NoWordsNoLine()
    ensures Line([]) == ""
  {
  }

  lemma {:induction false} LinesReadBack(steps: seq<ScriptStep>)
    requires forall i | 0 <= i < |steps| :: Parsable(steps[i])
    ensures Lines(ScriptText(steps)) == WrittenLines(steps)
  {
    hide Parsable, Lines, IsLine, Line, StepWords, AllWords;
    if steps == [] {
      NoLines();
    } else {
      LinesReadBack(steps[1..]);
      StepWordsAreWords(steps[0]);
      WordsMakeALine(StepWords(steps[0]));
      LinesFirst(Written(steps[0]), ScriptText(steps[1..]));
      assert WrittenLines(steps) == [Written(steps[0])] + WrittenLines(steps[1..]);
    }
  }

  lemma NoLines()
    ensures Lines("") == []
  {
  }

  /** A written line is not skipped: its first word is a verb. */
  lemma WrittenIsKept(step: ScriptStep)
    requires Parsable(step)
    ensures !Skipped(Written(step)) && Readable(Written(step)) && ParseLine(Written(step)) == Some(step)
  {
    hide Parsable, Words, Line, AllWords, ParseLine, KindWords, Decimal, Written;
    WrittenParses(step);
    assert StepWords(step) != [] ==> StepWords(step)[0] in ["emit", "duplicate", "delay"];
    NothingParsesFromNoWords(Written(step));
  }

  lemma NothingParsesFromNoWords(line: string)
    ensures ParseLine(line).Some? ==> Words(line) != []
  {
  }

  lemma {:induction false} StepsReadBack(steps: seq<ScriptStep>)
    requires forall i | 0 <= i < |steps| :: Parsable(steps[i])
    ensures forall i | 0 <= i < |steps| :: Readable(WrittenLines(steps)[i]) && !Skipped(WrittenLines(steps)[i])
    ensures StepsOf(WrittenLines(steps)) == steps
  {
    hide Parsable, Skipped, ParseLine, Written, Readable;
    if steps != [] {
      var n := |steps| - 1;
      StepsReadBack(steps[..n]);
      WrittenIsKept(steps[n]);
      assert WrittenLines(steps)[..n] == WrittenLines(steps[..n]);
      forall i | 0 <= i < n ensures WrittenLines(steps)[i] == WrittenLines(steps[..n])[i] {
      }
    }
  }

  /** Every list of one to 1024 parsable steps, written out within the size limit, parses back to itself. */
  lemma WrittenScriptParses(steps: seq<ScriptStep>)
    requires 0 < |steps| <= MAX_LINES && forall i | 0 <= i < |steps| :: Parsable(steps[i])
    requires Utf8Length(ScriptText(steps)) <= MAX_TEXT
    ensures ParsedScript(ScriptText(steps)) == Done(steps)
  {
    hide Parsable, Skipped, Readable, Lines, Utf8Length, ScriptText, Written;
    LinesReadBack(steps);
    StepsReadBack(steps);
    var lines := WrittenLines(steps);
    assert !Skipped(lines[0]);
  }

  /** The length in bytes: a character takes one more byte past each of 127, 2047 and 65535. */
  lemma {:induction false} Utf8LengthIs(text: string, c: char)
    ensures Utf8Length("") == 0
    ensures Utf8Length(text + [c]) - Utf8Length(text) ==
            1 + (if c as int > 127 then 1 else 0) + (if c as int > 2047 then 1 else 0)
            + (if c as int > 65535 then 1 else 0)
  {
    assert (text + [c])[..|text|] == text;
  }
}
