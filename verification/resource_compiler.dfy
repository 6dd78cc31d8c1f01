/**
  The resource compiler: a command-line tool that turns a binary file into C source
  text declaring `rc_data_<name>` (the bytes) and `rc_size_<name>` (their count).

  The file system is abstract: `openInput` and `openOutput` say what opening a path
  yields, and the generated text is returned instead of being written.
*/
module ResourceCompiler {
  import opened Options

  type Byte = b: int | 0 <= b < 256

  // ---------------------------------------------------------------------------
  // Command-line arguments
  // ---------------------------------------------------------------------------

  /** The three settings the argument loop fills in; "" means "not given". */
  datatype Settings = Settings(inputPath: string, outputPath: string, resourceName: string)

  /** The (flag, value) pairs the argument loop visits: positions 1 and 2, 3 and 4, ...
      When the argument count is even the loop does not run at all. */
  function Pairs(argv: seq<string>): (r: seq<(string, string)>)
    ensures |argv| % 2 == 1 ==> |r| == (|argv| - 1) / 2
    ensures |argv| % 2 == 0 ==> r == []
    ensures forall k :: 0 <= k < |r| ==> r[k] == (argv[2 * k + 1], argv[2 * k + 2])
  {
    if |argv| % 2 == 1 then
      seq((|argv| - 1) / 2, k requires 0 <= k < (|argv| - 1) / 2 => (argv[2 * k + 1], argv[2 * k + 2]))
    else
      []
  }

  /** The value left behind for `flag` once every pair has been visited. */
  function Lookup(pairs: seq<(string, string)>, flag: string): string
  {
    if pairs == [] then ""
    else if pairs[|pairs| - 1].0 == flag then pairs[|pairs| - 1].1
    else Lookup(pairs[..|pairs| - 1], flag)
  }

  /** Pair `j` is the last one whose flag is `flag`. */
  predicate IsLastOccurrence(pairs: seq<(string, string)>, flag: string, j: int)
  {
    0 <= j < |pairs| && pairs[j].0 == flag && forall k :: j < k < |pairs| ==> pairs[k].0 != flag
  }

  /** The flag's value is that of its last occurrence, and "" when it never occurs:
      unknown flags are ignored and a later occurrence overrides an earlier one. */
  lemma {:induction false} LookupIsLastOccurrence(pairs: seq<(string, string)>, flag: string)
    ensures (forall j :: 0 <= j < |pairs| ==> pairs[j].0 != flag) ==> Lookup(pairs, flag) == ""
    ensures forall j :: IsLastOccurrence(pairs, flag, j) ==> Lookup(pairs, flag) == pairs[j].1
  {
    if pairs != [] {
      var init := pairs[..|pairs| - 1];
      LookupIsLastOccurrence(init, flag);
      if pairs[|pairs| - 1].0 != flag {
        forall j | IsLastOccurrence(pairs, flag, j)
          ensures IsLastOccurrence(init, flag, j)
        {
        }
      }
    }
  }

  /** What the argument loop computes, as a function of the whole command line. */
  function SettingsOf(argv: seq<string>): Settings
  {
    var pairs := Pairs(argv);
    Settings(Lookup(pairs, "-input"), Lookup(pairs, "-output"), Lookup(pairs, "-name"))
  }

  predicate Complete(s: Settings)
  {
    s.inputPath != "" && s.outputPath != "" && s.resourceName != ""
  }

  /** The argument loop: pairs are consumed from position 1 while the count is odd;
      unknown flags are skipped and a repeated flag overwrites the earlier value. */
  method ParseArguments(argv: seq<string>) returns (s: Settings)
    ensures s == SettingsOf(argv)
    ensures |argv| % 2 == 0 ==> s == Settings("", "", "")
  {
    var inputPath, outputPath, resourceName := "", "", "";
    var i := 1;
    ghost var visited, total := 0, |Pairs(argv)|;
    assert |argv| % 2 == 1 ==> |argv| == 2 * total + 1;
    while i < |argv| && |argv| % 2 == 1
      invariant i == 2 * visited + 1
      invariant |argv| % 2 == 1 ==> i <= |argv|
      invariant |argv| % 2 == 0 ==> i == 1
      invariant visited <= total
      invariant inputPath == Lookup(Pairs(argv)[..visited], "-input")
      invariant outputPath == Lookup(Pairs(argv)[..visited], "-output")
      invariant resourceName == Lookup(Pairs(argv)[..visited], "-name")
    {
      ghost var pairs := Pairs(argv);
      assert visited < total && i + 1 < |argv|;
      assert pairs[..visited + 1][..visited] == pairs[..visited];
      assert pairs[..visited + 1][visited] == (argv[i], argv[i + 1]);
      var arg := argv[i];
      if arg == "-input" { inputPath := argv[i + 1]; }
      if arg == "-output" { outputPath := argv[i + 1]; }
      if arg == "-name" { resourceName := argv[i + 1]; }
      i := i + 2;
      visited := visited + 1;
    }
    assert Pairs(argv)[..visited] == Pairs(argv);
    s := Settings(inputPath, outputPath, resourceName);
  }

  /** Appending one more pair to a well-formed command line makes its value the one in
      force for that flag, whatever came before. */
  lemma {:induction false} LaterFlagOverrides(argv: seq<string>, flag: string, value: string)
    requires |argv| % 2 == 1
    ensures Pairs(argv + [flag, value]) == Pairs(argv) + [(flag, value)]
    ensures Lookup(Pairs(argv + [flag, value]), flag) == value
  {
    var longer := argv + [flag, value];
    assert |Pairs(longer)| == |Pairs(argv)| + 1;
    forall k | 0 <= k < |Pairs(longer)|
      ensures Pairs(longer)[k] == (Pairs(argv) + [(flag, value)])[k]
    {
      if k < |Pairs(argv)| {
        assert longer[2 * k + 1] == argv[2 * k + 1] && longer[2 * k + 2] == argv[2 * k + 2];
      } else {
        assert 2 * k + 1 == |argv|;
      }
    }
  }

  // ---------------------------------------------------------------------------
  // Code generation
  // ---------------------------------------------------------------------------

  predicate IsLowerHexDigit(c: char)
  {
    '0' <= c <= '9' || 'a' <= c <= 'f'
  }

  /** The lowercase hexadecimal digit for `d` (what `std::hex` prints). */
  function HexDigit(d: int): (c: char)
    requires 0 <= d < 16
    ensures IsLowerHexDigit(c)
    ensures DigitValue(c) == d
  {
    if d < 10 then ('0' as int + d) as char else ('a' as int + d - 10) as char
  }

  function DigitValue(c: char): (v: int)
    requires IsLowerHexDigit(c)
    ensures 0 <= v < 16
  {
    if c <= '9' then c as int - '0' as int else c as int - 'a' as int + 10
  }

  /** The value of a string of hexadecimal digits, most significant first. */
  function HexValue(s: string): (v: int)
    requires forall k :: 0 <= k < |s| ==> IsLowerHexDigit(s[k])
    ensures 0 <= v
  {
    if s == [] then 0 else 16 * HexValue(s[..|s| - 1]) + DigitValue(s[|s| - 1])
  }

  /** A byte as `std::hex` prints it after widening to 32 bits: lowercase, no padding. */
  function Hex(b: Byte): (r: string)
    ensures 1 <= |r| <= 2
    ensures forall k :: 0 <= k < |r| ==> IsLowerHexDigit(r[k])
    ensures |r| == 2 <==> b >= 16
    ensures |r| == 2 ==> r[0] != '0'
    ensures HexValue(r) == b
  {
    if b < 16 then [HexDigit(b)]
    else
      var r := [HexDigit(b / 16), HexDigit(b % 16)];
      assert r[..1][..0] == [] && r[..1] == [HexDigit(b / 16)];
      assert HexValue(r[..1]) == b / 16;
      assert HexValue(r) == 16 * HexValue(r[..1]) + DigitValue(r[1]);
      r
  }

  /** The text emitted for the byte at index `i`: a line break before every 100th byte,
      then `0x<hex>,`. */
  function Token(i: nat, b: Byte): string
  {
    (if i % 100 == 0 then "\n" else "") + "0x" + Hex(b) + ","
  }

  /** The array body for `data`, whose first byte sits at index `i` of the input. */
  function BodyFrom(data: seq<Byte>, i: nat): string
    decreases |data|
  {
    if data == [] then "" else Token(i, data[0]) + BodyFrom(data[1..], i + 1)
  }

  function Header(name: string): string
  {
    "const unsigned char rc_data_" + name + "[] = {"
  }

  function Footer(name: string): string
  {
    "};\n\nconst size_t rc_size_" + name + " = sizeof(rc_data_" + name + ");"
  }

  /** The whole generated source file. */
  function GeneratedSource(name: string, data: seq<Byte>): string
  {
    Header(name) + BodyFrom(data, 0) + Footer(name)
  }

  /** Emitting one more byte extends the body by exactly that byte's token. */
  lemma {:induction false} BodyAppend(data: seq<Byte>, b: Byte, i: nat)
    ensures BodyFrom(data + [b], i) == BodyFrom(data, i) + Token(i + |data|, b)
    decreases |data|
  {
    if data == [] {
      assert BodyFrom([b], i) == Token(i, b) + BodyFrom([], i + 1);
    } else {
      assert (data + [b])[1..] == data[1..] + [b];
      BodyAppend(data[1..], b, i + 1);
    }
  }

  lemma AppendToken(before: string, i: nat, b: Byte)
    ensures (if i % 100 == 0 then before + "\n" else before) + "0x" + Hex(b) + "," == before + Token(i, b)
  {
    var lead := if i % 100 == 0 then "\n" else "";
    assert (if i % 100 == 0 then before + "\n" else before) == before + lead;
  }

  lemma AppendFooter(before: string, name: string)
    ensures before + "};" + "\n" + "\n" + "const size_t rc_size_" + name + " = sizeof(rc_data_" + name + ");"
         == before + Footer(name)
  {
    assert "};" + "\n" + "\n" + "const size_t rc_size_" == "};\n\nconst size_t rc_size_";
  }

  lemma Framed(h: string, body: string, f: string)
    ensures (h + body + f)[..|h|] == h
    ensures (h + body + f)[|h + body + f| - |f|..] == f
    ensures (h + body + f)[|h|..|h + body + f| - |f|] == body
  {
  }

  lemma GenerateStep(name: string, data: seq<Byte>, i: nat, before: string)
    requires i < |data|
    requires before == Header(name) + BodyFrom(data[..i], 0)
    ensures before + Token(i, data[i]) == Header(name) + BodyFrom(data[..i + 1], 0)
  {
    BodyAppend(data[..i], data[i], 0);
    assert data[..i + 1] == data[..i] + [data[i]];
  }

  /** The generation loop: the header, one token per byte in input order, then the
      closing brace and the size declaration. */
  method Generate(name: string, data: seq<Byte>) returns (text: string)
    ensures text == GeneratedSource(name, data)
    ensures |text| >= |Header(name)| + |Footer(name)|
    ensures text[..|Header(name)|] == Header(name)
    ensures text[|text| - |Footer(name)|..] == Footer(name)
    ensures data == [] ==> text == Header(name) + Footer(name)
  {
    text := "const unsigned char rc_data_" + name + "[] = {";
    var i := 0;
    while i < |data|
      invariant i <= |data|
      invariant text == Header(name) + BodyFrom(data[..i], 0)
    {
      ghost var before := text;
      if i % 100 == 0 { text := text + "\n"; }
      text := text + "0x" + Hex(data[i]) + ",";
      AppendToken(before, i, data[i]);
      GenerateStep(name, data, i, before);
      i := i + 1;
    }
    assert data[..i] == data;
    AppendFooter(text, name);
    text := text + "};" + "\n" + "\n";
    text := text + "const size_t rc_size_" + name + " = sizeof(rc_data_" + name + ");";
    Framed(Header(name), BodyFrom(data, 0), Footer(name));
  }

  // ---------------------------------------------------------------------------
  // Counting tokens and line breaks
  // ---------------------------------------------------------------------------

  function Count(s: string, c: char): (n: nat)
    ensures n <= |s|
  {
    if s == [] then 0 else (if s[0] == c then 1 else 0) + Count(s[1..], c)
  }

  lemma {:induction false} CountConcat(a: string, b: string, c: char)
    ensures Count(a + b, c) == Count(a, c) + Count(b, c)
    decreases |a|
  {
    if a != [] {
      assert (a + b)[0] == a[0] && (a + b)[1..] == a[1..] + b;
      CountConcat(a[1..], b, c);
    } else {
      assert a + b == b;
    }
  }

  lemma HexCounts(b: Byte)
    ensures Count(Hex(b), ',') == 0 && Count(Hex(b), '\n') == 0
  {
    var h := Hex(b);
    if |h| == 2 { assert h[1..][1..] == []; }
  }

  /** One comma per token, and a line break exactly at the indices divisible by 100. */
  lemma {:induction false} TokenCounts(i: nat, b: Byte)
    ensures Count(Token(i, b), ',') == 1
    ensures Count(Token(i, b), '\n') == (if i % 100 == 0 then 1 else 0)
  {
    var lead := if i % 100 == 0 then "\n" else "";
    HexCounts(b);
    CountConcat(lead + "0x", Hex(b), ',');
    CountConcat(lead + "0x" + Hex(b), ",", ',');
    CountConcat(lead, "0x", ',');
    CountConcat(lead + "0x", Hex(b), '\n');
    CountConcat(lead + "0x" + Hex(b), ",", '\n');
    CountConcat(lead, "0x", '\n');
  }

  /** The number of multiples of 100 in [0, n), that is, the ceiling of n / 100. */
  function BreaksBelow(n: nat): nat
  {
    (n + 99) / 100
  }

  lemma BreaksStep(i: nat)
    ensures BreaksBelow(i + 1) == BreaksBelow(i) + (if i % 100 == 0 then 1 else 0)
  {
    var q, r := i / 100, i % 100;
    assert i == 100 * q + r;
    if r == 0 {
      assert i + 99 == 100 * q + 99 && (i + 99) / 100 == q;
      assert i + 100 == 100 * (q + 1) && (i + 100) / 100 == q + 1;
    } else {
      assert i + 99 == 100 * (q + 1) + (r - 1) && (i + 99) / 100 == q + 1;
      assert i + 100 == 100 * (q + 1) + r && (i + 100) / 100 == q + 1;
    }
  }

  lemma {:induction false} BodyFromCounts(data: seq<Byte>, i: nat)
    ensures Count(BodyFrom(data, i), ',') == |data|
    ensures Count(BodyFrom(data, i), '\n') == BreaksBelow(i + |data|) - BreaksBelow(i)
    decreases |data|
  {
    if data != [] {
      BodyFromCounts(data[1..], i + 1);
      TokenCounts(i, data[0]);
      BreaksStep(i);
      CountConcat(Token(i, data[0]), BodyFrom(data[1..], i + 1), ',');
      CountConcat(Token(i, data[0]), BodyFrom(data[1..], i + 1), '\n');
    }
  }

  /** The array body holds exactly one `0x..,` token per input byte and exactly
      ceil(n / 100) line breaks. */
  lemma BodyCounts(data: seq<Byte>)
    ensures Count(BodyFrom(data, 0), ',') == |data|
    ensures Count(BodyFrom(data, 0), '\n') == (|data| + 99) / 100
  {
    BodyFromCounts(data, 0);
  }

  // ---------------------------------------------------------------------------
  // Reading the generated text back
  // ---------------------------------------------------------------------------

  /** Reads one `0x<h>,` or `0x<hh>,` token from the front of `s`. */
  function ReadToken(s: string): Option<(Byte, string)>
  {
    if |s| >= 4 && s[0] == '0' && s[1] == 'x' && IsLowerHexDigit(s[2]) && s[3] == ',' then
      Some((DigitValue(s[2]), s[4..]))
    else if |s| >= 5 && s[0] == '0' && s[1] == 'x' && IsLowerHexDigit(s[2]) && IsLowerHexDigit(s[3]) && s[4] == ',' then
      Some((16 * DigitValue(s[2]) + DigitValue(s[3]), s[5..]))
    else
      None
  }

  /** Reads the bytes of an array body, skipping line breaks between tokens. */
  function DecodeBody(s: string): Option<seq<Byte>>
    decreases |s|
  {
    if s == [] then Some([])
    else if s[0] == '\n' then DecodeBody(s[1..])
    else match ReadToken(s)
      case None => None
      case Some((b, rest)) =>
        if |rest| < |s| then
          match DecodeBody(rest)
          case None => None
          case Some(bs) => Some([b] + bs)
        else None
  }

  /** Reads back a whole generated file for the resource `name`. */
  function ParseGenerated(name: string, text: string): Option<seq<Byte>>
  {
    var h, f := Header(name), Footer(name);
    if |text| >= |h| + |f| && text[..|h|] == h && text[|text| - |f|..] == f then
      DecodeBody(text[|h|..|text| - |f|])
    else
      None
  }

  lemma ReadTokenOfHex(b: Byte, rest: string)
    ensures ReadToken("0x" + Hex(b) + "," + rest) == Some((b, rest))
  {
    var s := "0x" + Hex(b) + "," + rest;
    var h := Hex(b);
    if |h| == 1 {
      assert s[2] == h[0] && s[3] == ',' && s[4..] == rest;
      assert HexValue(h) == DigitValue(h[0]) by { assert h[..0] == []; }
    } else {
      assert s[2] == h[0] && s[3] == h[1] && s[4] == ',' && s[5..] == rest;
      assert h[..1] == [h[0]] && h[..1][..0] == [];
    }
  }

  /** A token in front of a decodable text adds its byte in front of the result. */
  lemma DecodeToken(b: Byte, rest: string, bs: seq<Byte>)
    requires DecodeBody(rest) == Some(bs)
    ensures DecodeBody("0x" + Hex(b) + "," + rest) == Some([b] + bs)
  {
    var tok := "0x" + Hex(b) + "," + rest;
    ReadTokenOfHex(b, rest);
    assert tok[0] == '0';
  }

  lemma DecodeSkipsBreak(s: string)
    ensures DecodeBody("\n" + s) == DecodeBody(s)
  {
    assert ("\n" + s)[0] == '\n' && ("\n" + s)[1..] == s;
  }

  lemma TokenSplit(i: nat, b: Byte, rest: string)
    ensures Token(i, b) + rest == (if i % 100 == 0 then "\n" else "") + ("0x" + Hex(b) + "," + rest)
  {
  }

  lemma {:induction false} DecodeBodyFrom(data: seq<Byte>, i: nat)
    ensures DecodeBody(BodyFrom(data, i)) == Some(data)
    decreases |data|
  {
    if data != [] {
      var rest := BodyFrom(data[1..], i + 1);
      DecodeBodyFrom(data[1..], i + 1);
      DecodeToken(data[0], rest, data[1..]);
      TokenSplit(i, data[0], rest);
      if i % 100 == 0 {
        DecodeSkipsBreak("0x" + Hex(data[0]) + "," + rest);
      }
      assert [data[0]] + data[1..] == data;
    }
  }

  /** Round trip: reading back the generated text yields exactly the input bytes. */
  lemma RoundTrip(name: string, data: seq<Byte>)
    ensures ParseGenerated(name, GeneratedSource(name, data)) == Some(data)
  {
    var h, body, f := Header(name), BodyFrom(data, 0), Footer(name);
    Framed(h, body, f);
    DecodeBodyFrom(data, 0);
  }

  // ---------------------------------------------------------------------------
  // The whole tool
  // ---------------------------------------------------------------------------

  /** What opening and reading the input path yields. */
  datatype InputFile = Unopenable | Unreadable | Readable(bytes: seq<Byte>)

  /** What opening, writing and closing the output path yields. */
  datatype OutputFile = OutputUnopenable | WriteFails | Writable

  datatype CompileError =
    | InvalidArguments
    | InputOpenFailed(inputPath: string)
    | InputReadFailed(inputPath: string)
    | OutputOpenFailed(outputPath: string)
    | OutputWriteFailed(outputPath: string)

  /** EXIT_SUCCESS with the text written to `path`, or EXIT_FAILURE with the reason. */
  datatype Outcome = Generated(path: string, source: string) | Failed(error: CompileError)

  /** The tool's `main`: parse, validate, read the input, generate, write. */
  method CompileResource(argv: seq<string>, openInput: string -> InputFile, openOutput: string -> OutputFile)
    returns (r: Outcome)
    ensures var s := SettingsOf(argv);
      && (r == Failed(InvalidArguments) <==> !Complete(s))
      && (r.Generated? <==> Complete(s) && openInput(s.inputPath).Readable? && openOutput(s.outputPath).Writable?)
      && (r.Generated? ==>
            r.path == s.outputPath &&
            r.source == GeneratedSource(s.resourceName, openInput(s.inputPath).bytes))
    ensures |argv| % 2 == 0 ==> r == Failed(InvalidArguments)
    ensures var s := SettingsOf(argv);
      Complete(s) ==>
        && (openInput(s.inputPath).Unopenable? ==> r == Failed(InputOpenFailed(s.inputPath)))
        && (openInput(s.inputPath).Unreadable? ==> r == Failed(InputReadFailed(s.inputPath)))
        && (openInput(s.inputPath).Readable? && openOutput(s.outputPath).OutputUnopenable? ==>
              r == Failed(OutputOpenFailed(s.outputPath)))
        && (openInput(s.inputPath).Readable? && openOutput(s.outputPath).WriteFails? ==>
              r == Failed(OutputWriteFailed(s.outputPath)))
  {
    var s := ParseArguments(argv);
    if s.inputPath == "" || s.outputPath == "" || s.resourceName == "" {
      return Failed(InvalidArguments);
    }
    var input := openInput(s.inputPath);
    if input.Unopenable? {
      return Failed(InputOpenFailed(s.inputPath));
    }
    if input.Unreadable? {
      return Failed(InputReadFailed(s.inputPath));
    }
    var output := openOutput(s.outputPath);
    if output.OutputUnopenable? {
      return Failed(OutputOpenFailed(s.outputPath));
    }
    var text := Generate(s.resourceName, input.bytes);
    if output.WriteFails? {
      return Failed(OutputWriteFailed(s.outputPath));
    }
    r := Generated(s.outputPath, text);
  }
}
