/** The cache manifest: how it is printed and how it is read back. */
module ManifestText {

  datatype Option<+T> = None | Some(value: T)

  type Byte = n: int | 0 <= n < 256

  datatype Input = Input(path: string, directory: bool, hash: nat)

  datatype Manifest = Manifest(output: string, inputs: seq<Input>, stdout: seq<Byte>, stderr: seq<Byte>)

  // ---------------------------------------------------------------
  // hexadecimal
  // ---------------------------------------------------------------

  const Digits := "0123456789abcdef"

  function Digit(n: nat): char
    requires n < 16
  {
    Digits[n]
  }

  function DigitValue(c: char): Option<nat> {
    if '0' <= c <= '9' then Some((c - '0') as int)
    else if 'a' <= c <= 'f' then Some((c - 'a') as int + 10)
    else if 'A' <= c <= 'F' then Some((c - 'A') as int + 10)
    else None
  }

  lemma DigitRoundTrip(n: nat)
    requires n < 16
    ensures DigitValue(Digit(n)) == Some(n) && Digit(n) != ' ' && Digit(n) != '\n' && Digit(n) != '\r' && Digit(n) != '+'
  {
  }

  function Encode(bytes: seq<Byte>): string {
    if bytes == [] then "" else [Digit(bytes[0] / 16), Digit(bytes[0] % 16)] + Encode(bytes[1..])
  }

  /** One byte from two characters, of which the first may also be a plus sign,
      as the standard integer parser allows. */
  function DecodeByte(a: char, b: char): (r: Option<nat>)
    ensures r.Some? ==> r.value < 256
  {
    if DigitValue(b).None? then None
    else if a == '+' then DigitValue(b)
    else if DigitValue(a).None? then None
    else Some(16 * DigitValue(a).value + DigitValue(b).value)
  }

  function Decode(text: string): Option<seq<Byte>> {
    if text == "" then Some([])
    else if |text| == 1 then None
    else
      var first := DecodeByte(text[0], text[1]);
      var rest := Decode(text[2..]);
      if first.None? || rest.None? then None else Some([first.value] + rest.value)
  }

  lemma ByteRoundTrip(b: Byte)
    ensures DecodeByte(Digit(b / 16), Digit(b % 16)) == Some(b)
  {
    DigitRoundTrip(b / 16);
    DigitRoundTrip(b % 16);
    hide Digit, DigitValue;
  }

  lemma DecodeCons(a: char, b: char, rest: string)
    requires DecodeByte(a, b).Some? && Decode(rest).Some?
    ensures Decode([a, b] + rest) == Some([DecodeByte(a, b).value] + Decode(rest).value)
  {
    hide DecodeByte;
    var text := [a, b] + rest;
    assert text[2..] == rest && text[0] == a && text[1] == b;
  }

  /** Any bytes survive the hexadecimal codec. */
  lemma {:induction false} CodecRoundTrip(bytes: seq<Byte>)
    ensures Decode(Encode(bytes)) == Some(bytes)
  {
    if bytes != [] {
      CodecRoundTrip(bytes[1..]);
      ByteRoundTrip(bytes[0]);
      hide Digit, DecodeByte, Decode;
      DecodeCons(Digit(bytes[0] / 16), Digit(bytes[0] % 16), Encode(bytes[1..]));
      assert [bytes[0]] + bytes[1..] == bytes;
    }
  }

  lemma {:induction false} EncodedChars(bytes: seq<Byte>)
    ensures forall i :: 0 <= i < |Encode(bytes)| ==> Encode(bytes)[i] != '\n' && Encode(bytes)[i] != '\r'
  {
    if bytes != [] {
      EncodedChars(bytes[1..]);
      DigitRoundTrip(bytes[0] / 16);
      DigitRoundTrip(bytes[0] % 16);
      hide Digit;
      var text, rest := Encode(bytes), Encode(bytes[1..]);
      assert forall i :: 0 <= i < |text| ==> text[i] == if i == 0 then Digit(bytes[0] / 16) else if i == 1 then Digit(bytes[0] % 16) else rest[i - 2];
    }
  }

  /** The last `n` hexadecimal digits of a number. */
  function Hex(value: nat, n: nat): string {
    if n == 0 then "" else Hex(value / 16, n - 1) + [Digit(value % 16)]
  }

  function HexDigits(text: string): Option<nat> {
    if text == "" then Some(0)
    else
      var n := |text| - 1;
      var high, low := HexDigits(text[..n]), DigitValue(text[n]);
      if high.None? || low.None? then None else Some(16 * high.value + low.value)
  }

  const Hash := 0x1_0000_0000_0000_0000_0000_0000_0000_0000

  /** Parses a 128-bit number: a sign may stand before it, it may not be empty and
      it may not overflow. */
  function FromHex(text: string): Option<nat> {
    var digits := if text != "" && text[0] == '+' then text[1..] else text;
    if digits == "" then None
    else if HexDigits(digits).Some? && HexDigits(digits).value >= Hash then None
    else HexDigits(digits)
  }

  function Power16(n: nat): (r: nat)
    ensures r > 0
  {
    if n == 0 then 1 else 16 * Power16(n - 1)
  }

  lemma {:induction false} HexRoundTrip(value: nat, n: nat)
    requires value < Power16(n)
    ensures HexDigits(Hex(value, n)) == Some(value) && |Hex(value, n)| == n
    ensures forall i :: 0 <= i < n ==> Hex(value, n)[i] != ' ' && Hex(value, n)[i] != '\n' && Hex(value, n)[i] != '+'
  {
    if n > 0 {
      HexRoundTrip(value / 16, n - 1);
      DigitRoundTrip(value % 16);
      assert Hex(value, n)[..n - 1] == Hex(value / 16, n - 1);
    }
  }

  lemma {:induction false} Power16Add(a: nat, b: nat)
    ensures Power16(a + b) == Power16(a) * Power16(b)
  {
    if a > 0 {
      Power16Add(a - 1, b);
    }
  }

  lemma HashRoundTrip(hash: nat)
    requires hash < Hash
    ensures FromHex(Hex(hash, 32)) == Some(hash) && |Hex(hash, 32)| == 32
    ensures forall i :: 0 <= i < 32 ==> Hex(hash, 32)[i] != ' ' && Hex(hash, 32)[i] != '\n'
  {
    assert Power16(8) == 0x1_0000_0000;
    Power16Add(8, 8);
    Power16Add(16, 16);
    hide Power16, Hex, HexDigits;
    HexRoundTrip(hash, 32);
    assert Hex(hash, 32)[0] != '+';
  }

  // ---------------------------------------------------------------
  // lines
  // ---------------------------------------------------------------

  /** Where `c` first stands in the text, or its length. */
  function IndexOf(text: string, c: char): (i: nat)
    ensures i <= |text| && (forall k :: 0 <= k < i ==> text[k] != c) && (i < |text| ==> text[i] == c)
  {
    if text == "" then 0 else if text[0] == c then 0 else 1 + IndexOf(text[1..], c)
  }

  predicate Plain(text: string) {
    forall i :: 0 <= i < |text| ==> text[i] != '\n'
  }

  /** Without the carriage return at the end, if there is one. */
  function Strip(line: string): string {
    if line != "" && line[|line| - 1] == '\r' then line[..|line| - 1] else line
  }

  /** The lines of a text: a line ends with a line feed and loses the carriage
      return before it; the last one need not end. */
  function Lines(text: string): seq<string>
    decreases |text|
  {
    if text == "" then []
    else
      var i := IndexOf(text, '\n');
      if i == |text| then [text] else [Strip(text[..i])] + Lines(text[i + 1..])
  }

  lemma FirstLine(line: string, rest: string)
    requires Plain(line)
    ensures Lines(line + "\n" + rest) == [Strip(line)] + Lines(rest)
  {
    var text := line + "\n" + rest;
    assert text[|line|] == '\n';
    assert forall k :: 0 <= k < |line| ==> text[k] == line[k];
    var i := IndexOf(text, '\n');
    assert i == |line|;
    assert text[..i] == line && text[i + 1..] == rest;
  }

  lemma {:induction false} LinesPlain(text: string)
    ensures forall l :: l in Lines(text) ==> Plain(l)
    decreases |text|
  {
    if text != "" {
      var i := IndexOf(text, '\n');
      if i < |text| {
        LinesPlain(text[i + 1..]);
      }
    }
  }

  // ---------------------------------------------------------------
  // printing and reading
  // ---------------------------------------------------------------

  function RenderInput(input: Input): string {
    (if input.directory then "dir" else "file") + " " + Hex(input.hash, 32) + " " + input.path
  }

  function RenderInputs(inputs: seq<Input>): string {
    if inputs == [] then "" else RenderInput(inputs[0]) + "\n" + RenderInputs(inputs[1..])
  }

  function RenderStreams(m: Manifest): string {
    "stdout" + " " + Encode(m.stdout) + "\n" + ("stderr" + " " + Encode(m.stderr) + "\n" + "")
  }

  function Render(m: Manifest): string {
    "paco-cache 1" + "\n" + (Output + m.output + "\n" + (RenderInputs(m.inputs) + RenderStreams(m)))
  }

  /** Before and after the first space; without one, the whole and nothing. */
  function SplitSpace(line: string): (string, string) {
    var i := IndexOf(line, ' ');
    if i == |line| then (line, "") else (line[..i], line[i + 1..])
  }

  datatype LineKind = InputLine(directory: bool) | StdoutLine | StderrLine | Unknown

  function KindOf(word: string): LineKind {
    if word == "file" then InputLine(false)
    else if word == "dir" then InputLine(true)
    else if word == "stdout" then StdoutLine
    else if word == "stderr" then StderrLine
    else Unknown
  }

  /** What the rest of a line of some kind adds. */
  function ParseRest(m: Manifest, kind: LineKind, rest: string): Option<Manifest> {
    match kind
    case InputLine(directory) =>
      var (hash, path) := SplitSpace(rest);
      if IndexOf(rest, ' ') == |rest| || FromHex(hash).None? then None
      else Some(m.(inputs := m.inputs + [Input(path, directory, FromHex(hash).value)]))
    case StdoutLine => if Decode(rest).None? then None else Some(m.(stdout := Decode(rest).value))
    case StderrLine => if Decode(rest).None? then None else Some(m.(stderr := Decode(rest).value))
    case Unknown => None
  }

  function ParseLine(m: Manifest, line: string): Option<Manifest> {
    var (word, rest) := SplitSpace(line);
    ParseRest(m, KindOf(word), rest)
  }

  function ParseLines(m: Manifest, lines: seq<string>): Option<Manifest>
    decreases |lines|
  {
    if lines == [] then Some(m)
    else
      var next := ParseLine(m, lines[0]);
      if next.None? then None else ParseLines(next.value, lines[1..])
  }

  const Output := "output "

  function ParseManifest(text: string): Option<Manifest> {
    var lines := Lines(text);
    if |lines| < 2 || lines[0] != "paco-cache 1" || !(Output <= lines[1]) then None
    else ParseLines(Manifest(lines[1][|Output|..], [], [], []), lines[2..])
  }

  /** Reads a manifest line by line. */
  method Parse(text: string) returns (r: Option<Manifest>)
    ensures r == ParseManifest(text)
  {
    var lines := Lines(text);
    if |lines| < 2 || lines[0] != "paco-cache 1" || !(Output <= lines[1]) {
      return None;
    }
    var manifest := Manifest(lines[1][|Output|..], [], [], []);
    var i := 2;
    while i < |lines|
      invariant 2 <= i <= |lines|
      invariant ParseManifest(text) == ParseLines(manifest, lines[i..])
    {
      var next := ParseLine(manifest, lines[i]);
      if next.None? {
        return None;
      }
      assert lines[i..][1..] == lines[i + 1..];
      manifest := next.value;
      i := i + 1;
    }
    r := Some(manifest);
  }

  // ---------------------------------------------------------------
  // the round trip
  // ---------------------------------------------------------------

  /** Hashes of 128 bits. */
  predicate Hashed(m: Manifest) {
    forall i :: 0 <= i < |m.inputs| ==> m.inputs[i].hash < Hash
  }

  predicate OneLine(m: Manifest) {
    Plain(m.output) && forall i :: 0 <= i < |m.inputs| ==> Plain(m.inputs[i].path)
  }

  function StripInput(input: Input): Input {
    input.(path := Strip(input.path))
  }

  function StripInputs(inputs: seq<Input>): (r: seq<Input>)
    ensures |r| == |inputs| && forall i :: 0 <= i < |r| ==> r[i] == StripInput(inputs[i])
  {
    if inputs == [] then [] else [StripInput(inputs[0])] + StripInputs(inputs[1..])
  }

  lemma StripTail(head: string, tail: string)
    requires head != "" && head[|head| - 1] != '\r'
    ensures Strip(head + tail) == head + Strip(tail)
  {
    if tail == "" {
      assert head + tail == head;
    } else {
      assert (head + tail)[..|head + tail| - 1] == head + tail[..|tail| - 1];
    }
  }

  lemma SplitAt(head: string, tail: string)
    requires forall i :: 0 <= i < |head| ==> head[i] != ' '
    ensures IndexOf(head + " " + tail, ' ') == |head| && SplitSpace(head + " " + tail) == (head, tail)
  {
    var line := head + " " + tail;
    assert forall k :: 0 <= k < |head| ==> line[k] == head[k];
    assert line[|head|] == ' ';
    assert line[..|head|] == head && line[|head| + 1..] == tail;
  }

  predicate Word(text: string) {
    text != "" && forall i :: 0 <= i < |text| ==> text[i] != ' ' && text[i] != '\n'
  }

  lemma ParseWord(m: Manifest, word: string, rest: string)
    requires Word(word)
    ensures ParseLine(m, word + " " + rest) == ParseRest(m, KindOf(word), rest)
  {
    SplitAt(word, rest);
  }

  lemma WordLine(word: string, rest: string)
    requires Word(word)
    ensures Strip(word + " " + rest) == word + " " + Strip(rest)
    ensures Plain(rest) ==> Plain(word + " " + rest)
  {
    StripTail(word + " ", rest);
    var line := word + " " + rest;
    assert forall i :: 0 <= i < |line| ==> line[i] == if i < |word| then word[i] else if i == |word| then ' ' else rest[i - |word| - 1];
  }

  lemma Words()
    ensures Word("file") && KindOf("file") == InputLine(false)
    ensures Word("dir") && KindOf("dir") == InputLine(true)
    ensures Word("stdout") && KindOf("stdout") == StdoutLine
    ensures Word("stderr") && KindOf("stderr") == StderrLine
  {
  }

  lemma ParseInput(m: Manifest, directory: bool, hash: nat, path: string)
    requires hash < Hash
    ensures Word(Hex(hash, 32))
    ensures ParseRest(m, InputLine(directory), Hex(hash, 32) + " " + path) == Some(m.(inputs := m.inputs + [Input(path, directory, hash)]))
  {
    HashRoundTrip(hash);
    hide FromHex, Hex;
    SplitAt(Hex(hash, 32), path);
  }

  /** Reading back the line of one input. */
  lemma ReadInput(m: Manifest, input: Input)
    requires input.hash < Hash && Plain(input.path)
    ensures Plain(RenderInput(input))
    ensures ParseLine(m, Strip(RenderInput(input))) == Some(m.(inputs := m.inputs + [StripInput(input)]))
  {
    Words();
    var word := if input.directory then "dir" else "file";
    var hash, path := Hex(input.hash, 32), input.path;
    assert word + " " + hash + " " + path == word + " " + (hash + " " + path);
    hide Hex, KindOf, Word, Plain, Strip, ParseLine, ParseRest;
    ParseInput(m, input.directory, input.hash, Strip(path));
    WordLine(hash, path);
    WordLine(word, hash + " " + path);
    ParseWord(m, word, hash + " " + Strip(path));
  }

  lemma ReadStream(m: Manifest, word: string, bytes: seq<Byte>)
    requires word == "stdout" || word == "stderr"
    ensures Plain(word + " " + Encode(bytes))
    ensures ParseLine(m, Strip(word + " " + Encode(bytes))) == Some(if word == "stdout" then m.(stdout := bytes) else m.(stderr := bytes))
  {
    CodecRoundTrip(bytes);
    EncodedChars(bytes);
    Words();
    assert Strip(Encode(bytes)) == Encode(bytes);
    hide KindOf, Word, Plain, Strip, ParseLine, Encode, Decode;
    WordLine(word, Encode(bytes));
    ParseWord(m, word, Encode(bytes));
  }

  lemma ReadStreams(m: Manifest, from: Manifest)
    ensures ParseLines(m, Lines(RenderStreams(from))) == Some(m.(stdout := from.stdout, stderr := from.stderr))
  {
    var m1 := m.(stdout := from.stdout);
    var a, b := "stdout" + " " + Encode(from.stdout), "stderr" + " " + Encode(from.stderr);
    ReadStream(m, "stdout", from.stdout);
    ReadStream(m1, "stderr", from.stderr);
    hide Encode, ParseLine, Strip, Plain;
    FirstLine(a, b + "\n" + "");
    FirstLine(b, "");
    assert Lines("") == [];
    TwoLines(m, Strip(a), Strip(b));
  }

  lemma TwoLines(m: Manifest, a: string, b: string)
    requires ParseLine(m, a).Some? && ParseLine(ParseLine(m, a).value, b).Some?
    ensures ParseLines(m, [a] + ([b] + [])) == ParseLine(ParseLine(m, a).value, b)
  {
    hide ParseLine;
    var m1 := ParseLine(m, a).value;
    assert ([a] + ([b] + []))[1..] == [b] && [b][1..] == [];
    assert ParseLines(ParseLine(m1, b).value, []) == ParseLine(m1, b);
    assert ParseLines(m1, [b]) == ParseLine(m1, b);
  }

  lemma RenderCons(inputs: seq<Input>, last: string)
    requires inputs != []
    ensures RenderInputs(inputs) + last == RenderInput(inputs[0]) + "\n" + (RenderInputs(inputs[1..]) + last)
  {
    hide RenderInput;
    var line, more := RenderInput(inputs[0]), RenderInputs(inputs[1..]);
    assert RenderInputs(inputs) == line + "\n" + more;
    Regroup(line + "\n", more, last);
  }

  lemma Regroup(a: string, b: string, c: string)
    ensures a + b + c == a + (b + c)
  {
  }

  lemma ParseCons(m: Manifest, line: string, lines: seq<string>)
    requires ParseLine(m, line).Some?
    ensures ParseLines(m, [line] + lines) == ParseLines(ParseLine(m, line).value, lines)
  {
    hide ParseLine;
    assert ([line] + lines)[1..] == lines;
  }

  lemma {:induction false} ReadInputs(m: Manifest, inputs: seq<Input>, from: Manifest)
    requires forall i :: 0 <= i < |inputs| ==> inputs[i].hash < Hash && Plain(inputs[i].path)
    ensures ParseLines(m, Lines(RenderInputs(inputs) + RenderStreams(from)))
            == Some(Manifest(m.output, m.inputs + StripInputs(inputs), from.stdout, from.stderr))
    decreases |inputs|
  {
    hide RenderStreams, RenderInputs, RenderInput, ParseLine, ParseLines, Lines, Strip, Plain, StripInputs;
    if inputs == [] {
      RenderNone(RenderStreams(from), m.inputs);
      ReadStreams(m, from);
    } else {
      var m1 := m.(inputs := m.inputs + [StripInput(inputs[0])]);
      var tail := RenderInputs(inputs[1..]) + RenderStreams(from);
      RenderCons(inputs, RenderStreams(from));
      ReadInput(m, inputs[0]);
      FirstLine(RenderInput(inputs[0]), tail);
      ParseCons(m, Strip(RenderInput(inputs[0])), Lines(tail));
      ReadInputs(m1, inputs[1..], from);
      StripCons(m.inputs, inputs);
    }
  }

  lemma RenderNone(last: string, before: seq<Input>)
    ensures RenderInputs([]) + last == last && before + StripInputs([]) == before
  {
  }

  lemma StripCons(before: seq<Input>, inputs: seq<Input>)
    requires inputs != []
    ensures before + [StripInput(inputs[0])] + StripInputs(inputs[1..]) == before + StripInputs(inputs)
  {
  }

  /** A manifest without line feeds in its names reads back as itself, except that
      names lose a carriage return at their end. */
  lemma ReadBack(m: Manifest)
    requires Hashed(m) && OneLine(m)
    ensures ParseManifest(Render(m)) == Some(m.(output := Strip(m.output), inputs := StripInputs(m.inputs)))
  {
    var first, second := "paco-cache 1", Output + m.output;
    var rest := RenderInputs(m.inputs) + RenderStreams(m);
    HeaderLines(m.output);
    StripTail(Output, m.output);
    ReadInputs(Manifest(Strip(m.output), [], [], []), m.inputs, m);
    hide RenderInputs, RenderStreams, ParseLines, StripInputs, Lines, Strip, Plain;
    FirstLine(first, second + "\n" + rest);
    FirstLine(second, rest);
    Headed(first, Strip(m.output), Lines(rest));
    assert [] + StripInputs(m.inputs) == StripInputs(m.inputs);
  }

  lemma HeaderLines(output: string)
    requires Plain(output)
    ensures Plain("paco-cache 1") && Strip("paco-cache 1") == "paco-cache 1"
    ensures Plain(Output + output) && Output != "" && Output[|Output| - 1] != '\r'
  {
  }

  lemma Headed(first: string, output: string, rest: seq<string>)
    ensures var lines := [first] + ([Output + output] + rest);
      |lines| >= 2 && lines[0] == first && Output <= lines[1] && lines[1][|Output|..] == output && lines[2..] == rest
  {
  }

  /** What is read never has line feeds in its names. */
  lemma {:induction false} ParsedLinesPlain(m: Manifest, lines: seq<string>)
    requires OneLine(m) && forall l :: l in lines ==> Plain(l)
    ensures ParseLines(m, lines).Some? ==> OneLine(ParseLines(m, lines).value)
    decreases |lines|
  {
    if lines != [] {
      var next := ParseLine(m, lines[0]);
      ParsedLinePlain(m, lines[0]);
      hide ParseLine;
      if next.Some? {
        ParsedLinesPlain(next.value, lines[1..]);
      }
    }
  }

  lemma ParsedLinePlain(m: Manifest, line: string)
    requires OneLine(m) && Plain(line)
    ensures ParseLine(m, line).Some? ==> OneLine(ParseLine(m, line).value)
  {
    var rest := SplitSpace(line).1;
    assert Plain(rest);
    var path := SplitSpace(rest).1;
    assert Plain(path);
    hide KindOf, Decode, FromHex, Plain;
  }

  lemma ParsedPlain(text: string)
    ensures ParseManifest(text).Some? ==> OneLine(ParseManifest(text).value)
  {
    LinesPlain(text);
    var lines := Lines(text);
    if |lines| >= 2 && Output <= lines[1] {
      assert lines[1] in lines;
      assert Plain(lines[1][|Output|..]);
      ParsedLinesPlain(Manifest(lines[1][|Output|..], [], [], []), lines[2..]);
    }
  }

  predicate NoReturn(name: string) {
    name == "" || name[|name| - 1] != '\r'
  }

  /** Printing and reading back gives the same manifest if and only if no name in
      it has a line feed or ends with a carriage return. */
  lemma RoundTrip(m: Manifest)
    requires Hashed(m)
    ensures ParseManifest(Render(m)) == Some(m) <==>
      OneLine(m) && NoReturn(m.output) && forall i :: 0 <= i < |m.inputs| ==> NoReturn(m.inputs[i].path)
  {
    hide Render, ParseManifest, StripInputs;
    ParsedPlain(Render(m));
    if OneLine(m) {
      ReadBack(m);
      var n := m.(output := Strip(m.output), inputs := StripInputs(m.inputs));
      if NoReturn(m.output) && forall i :: 0 <= i < |m.inputs| ==> NoReturn(m.inputs[i].path) {
        assert n.inputs == m.inputs;
      } else if n == m {
        StripShortens(m.output);
        forall i | 0 <= i < |m.inputs| ensures NoReturn(m.inputs[i].path) {
          assert n.inputs[i] == m.inputs[i];
          StripShortens(m.inputs[i].path);
        }
      }
    }
  }

  lemma StripShortens(name: string)
    ensures Strip(name) == name <==> NoReturn(name)
  {
  }

  // ---------------------------------------------------------------
  // what is refused
  // ---------------------------------------------------------------

  predicate HexChar(c: char) {
    '0' <= c <= '9' || 'a' <= c <= 'f' || 'A' <= c <= 'F'
  }

  predicate AllHex(text: string) {
    forall i :: 0 <= i < |text| ==> HexChar(text[i])
  }

  lemma {:induction false} HexDigitsIs(text: string)
    ensures HexDigits(text).Some? <==> AllHex(text)
  {
    if text != "" {
      var n := |text| - 1;
      HexDigitsIs(text[..n]);
      assert text == text[..n] + [text[n]];
    }
  }

  /** A number of 128 bits in hexadecimal, with or without a plus sign. */
  predicate HashText(text: string) {
    var digits := if text != "" && text[0] == '+' then text[1..] else text;
    digits != "" && AllHex(digits) && (HexDigits(digits).Some? ==> HexDigits(digits).value < Hash)
  }

  lemma FromHexIs(text: string)
    ensures FromHex(text).Some? <==> HashText(text)
  {
    HexDigitsIs(if text != "" && text[0] == '+' then text[1..] else text);
  }

  /** Pairs of hexadecimal digits; the first of a pair may also be a plus sign. */
  predicate HexPairs(text: string) {
    if text == "" then true else |text| >= 2 && (HexChar(text[0]) || text[0] == '+') && HexChar(text[1]) && HexPairs(text[2..])
  }

  lemma {:induction false} DecodeIs(text: string)
    ensures Decode(text).Some? <==> HexPairs(text)
    decreases |text|
  {
    if |text| >= 2 {
      DecodeIs(text[2..]);
    }
  }

  predicate NoSpace(text: string) {
    forall i :: 0 <= i < |text| ==> text[i] != ' '
  }

  predicate Names(word: string, hash: string, path: string, line: string) {
    line == word + " " + hash + " " + path && NoSpace(hash) && HashText(hash)
  }

  /** A line that says something: an input with its hash and path, or a stream. */
  ghost predicate Readable(line: string) {
    || (exists hash, path :: Names("file", hash, path, line) || Names("dir", hash, path, line))
    || line == "stdout" || line == "stderr"
    || (exists hex :: (line == "stdout" + " " + hex || line == "stderr" + " " + hex) && HexPairs(hex))
  }

  lemma Cut(line: string, i: nat)
    requires i < |line|
    ensures line == line[..i] + [line[i]] + line[i + 1..]
  {
  }

  lemma SplitParts(line: string)
    ensures var (head, tail) := SplitSpace(line);
      NoSpace(head) && if IndexOf(line, ' ') == |line| then line == head && tail == "" else line == head + " " + tail
  {
    hide IndexOf;
    var i := IndexOf(line, ' ');
    if i < |line| {
      Cut(line, i);
    }
  }

  lemma RefusedLine(m: Manifest, line: string)
    ensures ParseLine(m, line).Some? ==> Readable(line)
  {
    var (word, rest) := SplitSpace(line);
    var (hash, path) := SplitSpace(rest);
    SplitParts(line);
    SplitParts(rest);
    FromHexIs(hash);
    DecodeIs(rest);
    hide FromHex, Decode, HashText, HexPairs, SplitSpace, NoSpace;
    if ParseLine(m, line).Some? {
      if KindOf(word).InputLine? {
        assert line == word + " " + (hash + " " + path);
        assert line == word + " " + hash + " " + path;
        assert Names(word, hash, path, line);
      } else if IndexOf(line, ' ') < |line| {
        assert line == word + " " + rest && HexPairs(rest);
      }
    }
  }

  lemma ReadableInput(m: Manifest, word: string, hash: string, path: string, line: string)
    requires (word == "file" || word == "dir") && Names(word, hash, path, line)
    ensures ParseLine(m, line).Some?
  {
    assert line == word + " " + (hash + " " + path);
    FromHexIs(hash);
    SplitAt(word, hash + " " + path);
    SplitAt(hash, path);
    hide FromHex, SplitSpace;
  }

  lemma ReadableStream(m: Manifest, word: string, hex: string)
    requires (word == "stdout" || word == "stderr") && HexPairs(hex)
    ensures ParseLine(m, word + " " + hex).Some? && ParseLine(m, word).Some?
  {
    DecodeIs(hex);
    SplitAt(word, hex);
    assert SplitSpace(word) == (word, "");
    hide SplitSpace;
  }

  /** A line is read if and only if it says something. */
  lemma LineRead(m: Manifest, line: string)
    ensures ParseLine(m, line).Some? <==> Readable(line)
  {
    RefusedLine(m, line);
    assert HexPairs("");
    hide ParseLine, HashText, HexPairs;
    if hash, path :| Names("file", hash, path, line) || Names("dir", hash, path, line) {
      ReadableInput(m, if Names("file", hash, path, line) then "file" else "dir", hash, path, line);
    } else if hex :| (line == "stdout" + " " + hex || line == "stderr" + " " + hex) && HexPairs(hex) {
      ReadableStream(m, if line == "stdout" + " " + hex then "stdout" else "stderr", hex);
    } else if line == "stdout" || line == "stderr" {
      ReadableStream(m, line, "");
    }
  }

  lemma {:induction false} LinesRead(m: Manifest, lines: seq<string>)
    ensures ParseLines(m, lines).Some? <==> forall i :: 0 <= i < |lines| ==> Readable(lines[i])
    decreases |lines|
  {
    hide ParseLine, Readable;
    if lines != [] {
      LineRead(m, lines[0]);
      if ParseLine(m, lines[0]).Some? {
        LinesRead(ParseLine(m, lines[0]).value, lines[1..]);
        assert forall i :: 1 <= i < |lines| ==> lines[i] == lines[1..][i - 1];
      }
    }
  }

  /** A text is refused if and only if it is not headed by the version and an output
      line, or some further line says nothing: its first word is unknown, an input's
      hash or path is missing or its hash is no 128-bit number, or a stream is not in
      hexadecimal. */
  lemma Refused(text: string)
    ensures ParseManifest(text).None? <==>
      var lines := Lines(text);
      || |lines| < 2 || lines[0] != "paco-cache 1" || !("output " <= lines[1])
      || exists i :: 2 <= i < |lines| && !Readable(lines[i])
  {
    var lines := Lines(text);
    hide Lines, ParseLines, Readable;
    if |lines| >= 2 && "output " <= lines[1] {
      LinesRead(Manifest(lines[1][|Output|..], [], [], []), lines[2..]);
      forall i | 2 <= i < |lines| ensures lines[i] == lines[2..][i - 2] {
      }
    }
  }

  // ---------------------------------------------------------------
  // the format
  // ---------------------------------------------------------------

  /** What each kind of line adds: a file or a directory behind the inputs so far, or
      one of the two streams. */
  lemma LineAdds(m: Manifest, hash: string, path: string, hex: string)
    requires NoSpace(hash) && FromHex(hash).Some? && Decode(hex).Some?
    ensures ParseLine(m, "file" + " " + (hash + " " + path)) == Some(m.(inputs := m.inputs + [Input(path, false, FromHex(hash).value)]))
    ensures ParseLine(m, "dir" + " " + (hash + " " + path)) == Some(m.(inputs := m.inputs + [Input(path, true, FromHex(hash).value)]))
    ensures ParseLine(m, "stdout" + " " + hex) == Some(m.(stdout := Decode(hex).value))
    ensures ParseLine(m, "stderr" + " " + hex) == Some(m.(stderr := Decode(hex).value))
  {
    Words();
    SplitAt("file", hash + " " + path);
    SplitAt("dir", hash + " " + path);
    SplitAt("stdout", hex);
    SplitAt("stderr", hex);
    SplitAt(hash, path);
    hide SplitSpace, FromHex, Decode, KindOf;
  }

  /** The value of a hexadecimal digit. */
  lemma DigitWorth(c: char)
    ensures '0' <= c <= '9' ==> DigitValue(c) == Some((c - '0') as int)
    ensures 'a' <= c <= 'f' ==> DigitValue(c) == Some(10 + (c - 'a') as int)
    ensures 'A' <= c <= 'F' ==> DigitValue(c) == Some(10 + (c - 'A') as int)
  {
  }

  /** Numbers and bytes have their high digits first. */
  lemma HighFirst(text: string, c: char, a: char, b: char)
    requires HexChar(a) && HexChar(b) && HexChar(c) && HexDigits(text).Some?
    ensures HexDigits(text + [c]) == Some(16 * HexDigits(text).value + DigitValue(c).value)
    ensures Decode([a, b]) == Some([16 * DigitValue(a).value + DigitValue(b).value])
  {
    assert (text + [c])[..|text|] == text;
    assert DecodeByte(a, b) == Some(16 * DigitValue(a).value + DigitValue(b).value);
    assert Decode("") == Some([]);
    DecodeCons(a, b, "");
    assert [a, b] + "" == [a, b];
    var byte := 16 * DigitValue(a).value + DigitValue(b).value;
    assert [byte] + [] == [byte];
  }
}
