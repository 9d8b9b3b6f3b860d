/** The fixture host's script language: which steps a line, and so a script, can contain. */
module Scripts {
  import opened Basics
  import opened Observations
  import opened Texts

  datatype ScriptStep =
    | Emit(kind: Kind)
    | EmitExact(generation: nat, ordinal: nat, kind: Kind)
    | DuplicateLast
    | DelayTicks(ticks: nat)

  datatype ScriptError =
    | ZeroOutputChunk
    | DuplicateWithoutObservation
    | OrdinalExhausted
    | MalformedScript
    | EmptyScript
    | ScriptTooLarge

  datatype Outcome<T> = Done(value: T) | Failed(error: ScriptError)

  const MAX_TEXT: nat := 65536
  const MAX_LINES: nat := 1024
  const MAX_HEX: nat := 8192

  // ---------- words ----------

  /** The characters Unicode calls white space. */
  predicate IsSpace(c: char) {
    || '\U{9}' <= c <= '\U{D}' || c == ' ' || c == '\U{85}' || c == '\U{A0}' || c == '\U{1680}'
    || '\U{2000}' <= c <= '\U{200A}' || c == '\U{2028}' || c == '\U{2029}' || c == '\U{202F}'
    || c == '\U{205F}' || c == '\U{3000}'
  }

  /** A word is not empty and holds no white space. */
  predicate IsWord(s: string) {
    s != "" && forall i | 0 <= i < |s| :: !IsSpace(s[i])
  }

  ghost predicate AllWords(words: seq<string>) {
    forall i | 0 <= i < |words| :: IsWord(words[i])
  }

  /** Where the word at the front of `s` ends. */
  function WordEnd(s: string): (n: nat)
    ensures n <= |s|
  {
    if s == "" || IsSpace(s[0]) then 0 else 1 + WordEnd(s[1..])
  }

  /** The words of a line: its longest stretches without white space. */
  function Words(line: string): seq<string>
    decreases |line|
  {
    if line == "" then []
    else if IsSpace(line[0]) then Words(line[1..])
    else [line[..WordEnd(line)]] + Words(line[WordEnd(line)..])
  }

  /** Words on one line, one space apart. */
  function Line(words: seq<string>): string {
    if words == [] then "" else if |words| == 1 then words[0] else words[0] + " " + Line(words[1..])
  }

  lemma {:induction false} WordEndStops(s: string)
    ensures forall i | 0 <= i < WordEnd(s) :: !IsSpace(s[i])
    ensures WordEnd(s) < |s| ==> IsSpace(s[WordEnd(s)])
  {
    hide IsSpace;
    if s != "" && !IsSpace(s[0]) {
      WordEndStops(s[1..]);
    }
  }

  lemma {:induction false} WordEndIs(word: string, rest: string)
    requires forall i | 0 <= i < |word| :: !IsSpace(word[i])
    requires rest != "" ==> IsSpace(rest[0])
    ensures WordEnd(word + rest) == |word|
  {
    hide IsSpace;
    if word == "" {
      assert word + rest == rest;
    } else {
      assert (word + rest)[1..] == word[1..] + rest;
      WordEndIs(word[1..], rest);
    }
  }

  lemma {:induction false} WordsAreWords(line: string)
    ensures AllWords(Words(line))
    decreases |line|
  {
    hide IsSpace;
    if line != "" {
      if IsSpace(line[0]) {
        WordsAreWords(line[1..]);
      } else {
        WordEndStops(line);
        WordsAreWords(line[WordEnd(line)..]);
      }
    }
  }

  lemma WordsFirst(word: string, rest: string)
    requires IsWord(word) && (rest != "" ==> IsSpace(rest[0]))
    ensures Words(word + rest) == [word] + Words(rest)
  {
    hide IsSpace, WordEnd;
    var s := word + rest;
    assert s[0] == word[0];
    WordEndIs(word, rest);
    assert s[..|word|] == word && s[|word|..] == rest;
  }

  lemma WordsAfterSpace(s: string)
    ensures IsSpace(' ') && Words(" " + s) == Words(s)
  {
    assert (" " + s)[1..] == s;
  }

  /** Splitting a line written from words gives those words back. */
  lemma {:induction false} LineSplits(words: seq<string>)
    requires AllWords(words)
    ensures Words(Line(words)) == words
  {
    hide IsWord, WordEnd, IsSpace;
    if |words| == 1 {
      assert words[0] + "" == words[0];
      WordsFirst(words[0], "");
    } else if |words| > 1 {
      hide Words;
      var tail := Line(words[1..]);
      WordsAfterSpace(tail);
      WordsFirst(words[0], " " + tail);
      assert words[0] + (" " + tail) == Line(words);
      LineSplits(words[1..]);
    }
  }

  // ---------- parsing ----------

  function Digit(c: char): Option<nat> {
    if '0' <= c <= '9' then Some(c as nat - '0' as nat) else None
  }

  function Digits(s: string): Option<nat> {
    if s == "" then Some(0)
    else
      match (Digits(s[..|s| - 1]), Digit(s[|s| - 1]))
      case (Some(n), Some(d)) => if 10 * n + d <= U64_MAX then Some(10 * n + d) else None
      case _ => None
  }

  /** An unsigned 64-bit number, with the optional plus sign the standard parser accepts. */
  function ParseNumber(s: string): Option<nat> {
    var body := if s != "" && s[0] == '+' then s[1..] else s;
    if body == "" then None else Digits(body)
  }

  /** Two hex digits, or a plus sign and one, as the standard parser accepts. */
  function HexPair(a: char, b: char): Option<Byte> {
    match (Nibble(a), Nibble(b))
    case (Some(hi), Some(lo)) => Some(Joined(hi, lo))
    case (None, Some(lo)) => if a == '+' then Some(Joined(0, lo)) else None
    case _ => None
  }

  /** A pair is a byte exactly when its second character is a digit and its first is one or a plus sign, as a
      signed number would have; the sign counts nothing. */
  lemma HexPairIs(a: char, b: char)
    ensures HexPair(a, b).Some? <==> Nibble(b).Some? && (Nibble(a).Some? || a == '+')
    ensures HexPair(a, b).Some? ==>
            HexPair(a, b).value as nat == Nibble(b).value + if a == '+' then 0 else 16 * Nibble(a).value
  {
  }

  function HexBytes(s: string): Option<seq<Byte>>
    requires |s| % 2 == 0
  {
    if s == "" then Some([])
    else
      match (HexPair(s[0], s[1]), HexBytes(s[2..]))
      case (Some(b), Some(rest)) => Some([b] + rest)
      case _ => None
  }

  function DecodeHex(s: string): Option<seq<Byte>> {
    if |s| % 2 != 0 || |s| > MAX_HEX then None else HexBytes(s)
  }

  function ParseKind(words: seq<string>): Option<(Kind, nat)>
    requires words != []
  {
    var none: Option<(Kind, nat)> := None;
    if words[0] == "started" then Some((Started, 1))
    else if words[0] == "progress" then
      if |words| < 2 then none
      else match ParseNumber(words[1]) case Some(n) => Some((Progress(n), 2)) case None => none
    else if words[0] == "disconnect" then Some((ObservationDisconnected, 1))
    else if words[0] == "reconnect" then Some((ObservationReconnected, 1))
    else if words[0] == "success" then Some((KnownSuccess, 1))
    else if words[0] == "failure" then Some((KnownFailure, 1))
    else if words[0] == "crash" then Some((HarnessCrashed, 1))
    else if words[0] == "unknown-liveness" then Some((UnknownLiveness, 1))
    else if words[0] == "effect-unknown" then Some((EffectUnknown, 1))
    else if words[0] == "result" || words[0] == "output" then
      if |words| < 2 then none
      else
        match DecodeHex(words[1])
        case Some(bytes) => Some((if words[0] == "result" then Result(bytes) else Output(bytes), 2))
        case None => none
    else none
  }

  /** The words of one line. Only `emit` refuses trailing words. */
  function ParseWords(words: seq<string>): Option<ScriptStep> {
    if words == [] then None
    else if words[0] == "duplicate" then Some(DuplicateLast)
    else if words[0] == "delay" then
      if |words| < 2 then None
      else match ParseNumber(words[1]) case Some(n) => Some(DelayTicks(n)) case None => None
    else if words[0] == "emit" && |words| > 1 then
      match ParseKind(words[1..])
      case Some((kind, used)) => if |words| == 1 + used then Some(Emit(kind)) else None
      case None => None
    else None
  }

  function ParseLine(line: string): Option<ScriptStep> {
    ParseWords(Words(line))
  }

  /** Blank once trimmed, or a comment. */
  predicate Skipped(line: string) {
    var words := Words(line);
    words == [] || (words[0] != "" && words[0][0] == '#')
  }

  // ---------- exactly which steps a script can contain ----------

  /** Numbers are 64-bit, payloads not empty and within the hex limit, and no exact emission or delay
      observation. */
  predicate Parsable(step: ScriptStep) {
    match step
    case Emit(kind) =>
      && !kind.Delayed?
      && (kind.Progress? ==> kind.step <= U64_MAX)
      && (kind.Output? || kind.Result? ==> 0 < |kind.bytes| <= 4096)
    case EmitExact(_, _, _) => false
    case DuplicateLast => true
    case DelayTicks(ticks) => ticks <= U64_MAX
  }

  function KindWords(kind: Kind): seq<string> {
    match kind
    case Started => ["started"]
    case Progress(step) => ["progress", Decimal(step)]
    case Result(bytes) => ["result", Hex(bytes)]
    case KnownFailure => ["failure"]
    case KnownSuccess => ["success"]
    case ObservationDisconnected => ["disconnect"]
    case ObservationReconnected => ["reconnect"]
    case HarnessCrashed => ["crash"]
    case UnknownLiveness => ["unknown-liveness"]
    case EffectUnknown => ["effect-unknown"]
    case Output(bytes) => ["output", Hex(bytes)]
    case Delayed(_) => []
  }

  function StepWords(step: ScriptStep): seq<string> {
    match step
    case Emit(kind) => ["emit"] + KindWords(kind)
    case EmitExact(_, _, _) => []
    case DuplicateLast => ["duplicate"]
    case DelayTicks(ticks) => ["delay", Decimal(ticks)]
  }

  /** A line for a step. */
  function Written(step: ScriptStep): string {
    Line(StepWords(step))
  }

  lemma {:induction false} HexBytesLength(s: string)
    requires |s| % 2 == 0
    ensures HexBytes(s).Some? ==> |HexBytes(s).value| == |s| / 2
  {
    if s != "" {
      HexBytesLength(s[2..]);
    }
  }

  lemma {:induction false} HexBytesAppend(s: string, t: string)
    requires |s| % 2 == 0 && |t| % 2 == 0 && HexBytes(s).Some? && HexBytes(t).Some?
    ensures HexBytes(s + t) == Some(HexBytes(s).value + HexBytes(t).value)
  {
    hide HexPair;
    if s == "" {
      assert s + t == t;
      assert HexBytes(s).value + HexBytes(t).value == HexBytes(t).value;
    } else {
      assert (s + t)[2..] == s[2..] + t;
      HexBytesAppend(s[2..], t);
      Reassociated(HexPair(s[0], s[1]).value, HexBytes(s[2..]).value, HexBytes(t).value);
    }
  }

  lemma Reassociated(b: Byte, s: seq<Byte>, t: seq<Byte>)
    ensures ([b] + s) + t == [b] + (s + t)
  {
  }

  lemma HexByteReadsBack(b: Byte)
    ensures HexBytes(HexByte(b)) == Some([b])
  {
    hide Nibble, HexByte, Joined;
    ByteRoundTrip(b);
    assert HexByte(b)[2..] == "" && HexBytes("") == Some([]);
    assert [b] + [] == [b];
  }

  lemma {:induction false} HexReadsBack(bytes: seq<Byte>)
    ensures |Hex(bytes)| == 2 * |bytes| && HexBytes(Hex(bytes)) == Some(bytes)
  {
    hide HexByte, HexPair;
    if bytes != [] {
      var n := |bytes| - 1;
      HexReadsBack(bytes[..n]);
      HexByteReadsBack(bytes[n]);
      HexBytesAppend(Hex(bytes[..n]), HexByte(bytes[n]));
      assert bytes == bytes[..n] + [bytes[n]];
    }
  }

  lemma {:induction false} DigitsBound(s: string)
    ensures Digits(s).Some? ==> Digits(s).value <= U64_MAX
  {
    if s != "" {
      DigitsBound(s[..|s| - 1]);
    }
  }

  lemma {:induction false} DecimalReadsBack(n: nat)
    requires n <= U64_MAX
    ensures Decimal(n) != "" && Decimal(n)[0] != '+' && Digits(Decimal(n)) == Some(n)
  {
    var s := Decimal(n);
    if n < 10 {
      assert s[..0] == "";
    } else {
      DecimalReadsBack(n / 10);
      assert s[..|s| - 1] == Decimal(n / 10);
    }
  }

  lemma ParsedWordsAreParsable(words: seq<string>)
    requires AllWords(words)
    ensures ParseWords(words).Some? ==> Parsable(ParseWords(words).value)
  {
    hide Digits, HexBytes, IsSpace;
    if |words| > 1 {
      assert IsWord(words[1]);
      DigitsBound(words[1]);
      DigitsBound(words[1][1..]);
    }
    if |words| > 2 {
      assert IsWord(words[2]);
      DigitsBound(words[2]);
      DigitsBound(words[2][1..]);
      if |words[2]| % 2 == 0 {
        HexBytesLength(words[2]);
      }
    }
  }

  lemma ParsedIsParsable(line: string)
    ensures ParseLine(line).Some? ==> Parsable(ParseLine(line).value)
  {
    hide ParseWords, Parsable, AllWords;
    WordsAreWords(line);
    ParsedWordsAreParsable(Words(line));
  }

  lemma {:induction false} DecimalIsWord(n: nat)
    ensures IsWord(Decimal(n))
  {
    if n >= 10 {
      DecimalIsWord(n / 10);
    }
  }

  lemma HexByteIsWord(b: Byte)
    ensures IsWord(HexByte(b))
  {
    HexDigitIsNoSpace(b as nat / 16);
    HexDigitIsNoSpace(b as nat % 16);
  }

  lemma HexDigitIsNoSpace(n: nat)
    requires n < 16
    ensures !IsSpace(HexDigit(n))
  {
  }

  lemma {:induction false} HexIsWord(bytes: seq<Byte>)
    requires bytes != []
    ensures IsWord(Hex(bytes))
  {
    hide IsSpace, HexByte;
    var n := |bytes| - 1;
    HexByteIsWord(bytes[n]);
    if n > 0 {
      HexIsWord(bytes[..n]);
    }
  }

  lemma LettersAreWords(s: string)
    requires s != "" && forall i | 0 <= i < |s| :: 'a' <= s[i] <= 'z' || s[i] == '-'
    ensures IsWord(s)
  {
  }

  lemma KindWordsAreWords(kind: Kind)
    requires Parsable(Emit(kind))
    ensures AllWords(KindWords(kind))
  {
    hide IsWord, Hex, Decimal;
    LettersAreWords(KindWords(kind)[0]);
    if kind.Progress? {
      DecimalIsWord(kind.step);
    } else if kind.Output? || kind.Result? {
      HexIsWord(kind.bytes);
    }
  }

  lemma StepWordsAreWords(step: ScriptStep)
    requires Parsable(step)
    ensures AllWords(StepWords(step))
  {
    hide Parsable, Decimal, KindWords;
    if step.DelayTicks? {
      DecimalIsWord(step.ticks);
    } else if step.Emit? {
      KindWordsAreWords(step.kind);
      assert IsWord("emit");
    }
  }

  lemma StepWordsParse(step: ScriptStep)
    requires Parsable(step)
    ensures ParseWords(StepWords(step)) == Some(step)
  {
    hide Digits, HexBytes, Hex, Decimal;
    if step.DelayTicks? {
      DecimalReadsBack(step.ticks);
    } else if step.Emit? {
      assert StepWords(step)[1..] == KindWords(step.kind);
      KindReadsBack(step.kind);
    }
  }

  lemma KindReadsBack(kind: Kind)
    requires Parsable(Emit(kind))
    ensures KindWords(kind) != [] && ParseKind(KindWords(kind)) == Some((kind, |KindWords(kind)|))
  {
    hide Digits, HexBytes, Hex, Decimal;
    if kind.Progress? {
      DecimalReadsBack(kind.step);
    } else if kind.Output? || kind.Result? {
      HexReadsBack(kind.bytes);
    }
  }

  /** Every parsable step has a line, and the line's words are what its text splits into. */
  lemma WrittenParses(step: ScriptStep)
    requires Parsable(step)
    ensures AllWords(StepWords(step)) && Words(Written(step)) == StepWords(step)
    ensures ParseLine(Written(step)) == Some(step)
  {
    hide Parsable, StepWords, ParseWords, Words, Line, AllWords;
    StepWordsAreWords(step);
    LineSplits(StepWords(step));
    StepWordsParse(step);
  }

  /** Some line parses to a step exactly when the step is parsable. */
  lemma ParsableIff(step: ScriptStep)
    ensures Parsable(step) <==> exists line :: ParseLine(line) == Some(step)
  {
    hide Parsable, ParseLine;
    if Parsable(step) {
      WrittenParses(step);
    } else {
      forall line ensures ParseLine(line) != Some(step) {
        ParsedIsParsable(line);
      }
    }
  }

  predicate Readable(line: string) {
    Skipped(line) || ParseLine(line).Some?
  }

  /** The steps of the lines that are not skipped, in order. */
  function StepsOf(lines: seq<string>): seq<ScriptStep>
    requires forall i | 0 <= i < |lines| :: Readable(lines[i])
  {
    if lines == [] then []
    else
      var last := lines[|lines| - 1];
      assert Readable(last);
      StepsOf(lines[..|lines| - 1]) + if Skipped(last) then [] else [ParseLine(last).value]
  }
}
