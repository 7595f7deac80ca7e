/**
 * formatChunk: turns one received chunk, its direction and the display
 * mode configured for that direction into the block written to stdout.
 * The wall-clock timestamp `new Date().toISOString()` is a parameter.
 */
module Format {
  import opened Wrappers
  import opened Chunks
  import opened Lines
  import opened Hex

  /** `in` flows from passthru to target, `out` from target to passthru. */
  datatype Direction = In | Out

  /** How a direction's chunks are shown; it never affects relaying. */
  datatype DisplayMode = Text | Binary

  function Marker(d: Direction): (m: string)
    ensures |m| == 3 && '\n' !in m
  {
    if d == In then "<--" else "-->"
  }

  /** What every log line starts with: `[${timestamp}] ${marker} `. */
  function Prefix(timestamp: string, d: Direction): (p: string)
    ensures |p| == |timestamp| + 7
    ensures '\n' !in timestamp ==> '\n' !in p
  {
    CountCharAppend('\n', "[", timestamp);
    CountCharAppend('\n', "[" + timestamp, "] ");
    CountCharAppend('\n', "[" + timestamp + "] ", Marker(d));
    CountCharAppend('\n', "[" + timestamp + "] " + Marker(d), " ");
    "[" + timestamp + "] " + Marker(d) + " "
  }

  /**
   * `chunk.toString('utf-8')` restricted to a one-to-one byte-to-character
   * reading: each byte becomes the character with the same code, which is
   * what UTF-8 decoding gives for ASCII bytes.
   */
  function DecodeText(chunk: Chunk): (s: string)
    ensures |s| == |chunk|
    ensures forall i :: 0 <= i < |chunk| ==> s[i] as int == chunk[i] as int
  {
    seq(|chunk|, i requires 0 <= i < |chunk| => chunk[i] as int as char)
  }

  /** `lines.filter(line => line.length != 0)`. */
  function NonEmptyLines(lines: seq<string>): (r: seq<string>)
    ensures |r| <= |lines|
    ensures |r| == 0 <==> AllEmpty(lines)
  {
    if |lines| == 0 then []
    else if |lines[0]| != 0 then [lines[0]] + NonEmptyLines(lines[1..])
    else
      var rest := NonEmptyLines(lines[1..]);
      assert AllEmpty(lines) <==> AllEmpty(lines[1..]) by {
        AllEmptyCons(lines[1..]);
        assert lines == [""] + lines[1..];
      }
      rest
  }

  /** `lines.map(line => prefix + line)`. */
  function PrefixEach(p: string, lines: seq<string>): (r: seq<string>)
    ensures |r| == |lines|
    ensures forall i :: 0 <= i < |lines| ==> r[i] == p + lines[i]
  {
    seq(|lines|, i requires 0 <= i < |lines| => p + lines[i])
  }

  /**
   * The text branch, on already decoded text. The `lines.length == 0` test
   * of the source cannot succeed, since a split has at least one piece.
   */
  function FormatText(text: string, d: Direction, timestamp: string): string
  {
    var lines := SplitLines(StripTrailingTerminator(text));
    if |lines| == 0 || |NonEmptyLines(lines)| == 0 then ""
    else Join(PrefixEach(Prefix(timestamp, d), lines), "\n") + "\n"
  }

  /** The binary branch: one line, whatever the length of the chunk. */
  function FormatBinary(chunk: Chunk, d: Direction, timestamp: string): string
  {
    Prefix(timestamp, d) + HexField(chunk) + "\n"
  }

  /** formatChunk(chunk, direction, type), at the given timestamp. */
  function FormatChunk(chunk: Chunk, d: Direction, mode: DisplayMode, timestamp: string): string
  {
    if mode == Text then FormatText(DecodeText(chunk), d, timestamp)
    else FormatBinary(chunk, d, timestamp)
  }

  // ---------------------------------------------------------------------
  // The shape of a log block
  // ---------------------------------------------------------------------

  /** One log line per element: `p + line + "\n"` each, in order. */
  function LogBlock(p: string, lines: seq<string>): string
  {
    if |lines| == 0 then "" else p + lines[0] + "\n" + LogBlock(p, lines[1..])
  }

  /** Position `i` of `o` starts a line of output. */
  predicate LineStart(o: string, i: nat)
    requires i < |o|
  {
    i == 0 || o[i - 1] == '\n'
  }

  /** Every line of `o` begins with `p`. */
  predicate EveryLineStartsWith(o: string, p: string)
  {
    forall i :: 0 <= i < |o| && LineStart(o, i) ==> p <= o[i..]
  }

  /** The joined prefixed lines plus one final "\n" is the block of terminated lines. */
  lemma {:induction false} JoinedIsLogBlock(p: string, lines: seq<string>)
    requires |lines| >= 1
    ensures Join(PrefixEach(p, lines), "\n") + "\n" == LogBlock(p, lines)
  {
    if |lines| > 1 {
      JoinedIsLogBlock(p, lines[1..]);
      assert PrefixEach(p, lines)[1..] == PrefixEach(p, lines[1..]);
    }
  }

  /** Without '\n' in the prefix or the lines, a block has exactly one '\n' per line. */
  lemma {:induction false} LogBlockNewlines(p: string, lines: seq<string>)
    requires '\n' !in p
    requires forall i :: 0 <= i < |lines| ==> '\n' !in lines[i]
    ensures CountChar('\n', LogBlock(p, lines)) == |lines|
  {
    if |lines| > 0 {
      LogBlockNewlines(p, lines[1..]);
      CountCharAppend('\n', p, lines[0]);
      CountCharAppend('\n', p + lines[0], "\n");
      CountCharAppend('\n', p + lines[0] + "\n", LogBlock(p, lines[1..]));
    }
  }

  /** Without '\n' in the prefix or the lines, every line of a block starts with the prefix. */
  lemma {:induction false} LogBlockLineStarts(p: string, lines: seq<string>)
    requires '\n' !in p
    requires forall i :: 0 <= i < |lines| ==> '\n' !in lines[i]
    ensures EveryLineStartsWith(LogBlock(p, lines), p)
  {
    if |lines| > 0 {
      var head := p + lines[0] + "\n";
      var rest := LogBlock(p, lines[1..]);
      var o := LogBlock(p, lines);
      assert o == head + rest;
      LogBlockLineStarts(p, lines[1..]);
      forall i | 0 <= i < |o| && LineStart(o, i) ensures p <= o[i..] {
        if i == 0 {
          assert o[..|p|] == p;
        } else if i < |head| {
          assert false;
        } else {
          var j := i - |head|;
          assert o[i..] == rest[j..];
          assert LineStart(rest, j) by {
            if j > 0 { assert rest[j - 1] == o[i - 1]; }
          }
        }
      }
    }
  }

  lemma {:induction false} LogBlockEndsWithNewline(p: string, lines: seq<string>)
    requires |lines| >= 1
    ensures EndsWithNewline(LogBlock(p, lines))
  {
    if |lines| > 1 {
      LogBlockEndsWithNewline(p, lines[1..]);
    }
  }

  // ---------------------------------------------------------------------
  // Text mode
  // ---------------------------------------------------------------------

  /** The lines text mode logs: the split of the text after its trailing terminator is removed. */
  function TextLines(text: string): (lines: seq<string>)
    ensures |lines| >= 1
  {
    SplitLines(StripTrailingTerminator(text))
  }

  /** Text mode logs nothing exactly when the text is made of line terminators only. */
  lemma TextSuppressedIff(text: string, d: Direction, timestamp: string)
    ensures FormatText(text, d, timestamp) == "" <==> OnlyTerminators(text)
  {
    var lines := TextLines(text);
    SplitAllEmptyIff(StripTrailingTerminator(text));
    StripKeepsOnlyTerminators(text);
    if |NonEmptyLines(lines)| != 0 {
      JoinedIsLogBlock(Prefix(timestamp, d), lines);
      LogBlockEndsWithNewline(Prefix(timestamp, d), lines);
    }
  }

  /** Otherwise it logs every split line, empty ones included, in order, under one prefix. */
  lemma TextBlock(text: string, d: Direction, timestamp: string)
    requires !OnlyTerminators(text)
    ensures FormatText(text, d, timestamp) == LogBlock(Prefix(timestamp, d), TextLines(text))
  {
    TextSuppressedIff(text, d, timestamp);
    JoinedIsLogBlock(Prefix(timestamp, d), TextLines(text));
  }

  /** A line of text that holds anything but terminators, spaces included, is logged. */
  lemma WhitespaceIsLogged(text: string, i: nat, d: Direction, timestamp: string)
    requires i < |text| && text[i] == ' '
    ensures FormatText(text, d, timestamp) != ""
  {
    TextSuppressedIff(text, d, timestamp);
    assert !InTerminator(text, i);
  }

  /**
   * The text-mode output is "" or newline-terminated, has one '\n' per
   * logged line, and every line carries the prefix.
   */
  lemma TextShape(text: string, d: Direction, timestamp: string)
    requires '\n' !in timestamp
    ensures var o := FormatText(text, d, timestamp);
      && EveryLineStartsWith(o, Prefix(timestamp, d))
      && (o == "" || (EndsWithNewline(o) && CountChar('\n', o) == |TextLines(text)|))
  {
    var p := Prefix(timestamp, d);
    if !OnlyTerminators(text) {
      TextBlock(text, d, timestamp);
      LogBlockLineStarts(p, TextLines(text));
      LogBlockNewlines(p, TextLines(text));
      LogBlockEndsWithNewline(p, TextLines(text));
    } else {
      TextSuppressedIff(text, d, timestamp);
    }
  }

  // ---------------------------------------------------------------------
  // Binary mode
  // ---------------------------------------------------------------------

  /**
   * Binary mode writes exactly one prefixed, newline-terminated line whose
   * field reads back as the chunk; for the empty chunk the field is empty.
   */
  lemma BinaryShape(chunk: Chunk, d: Direction, timestamp: string)
    requires '\n' !in timestamp
    ensures var o := FormatBinary(chunk, d, timestamp);
      && o == LogBlock(Prefix(timestamp, d), [HexField(chunk)])
      && EveryLineStartsWith(o, Prefix(timestamp, d))
      && EndsWithNewline(o)
      && CountChar('\n', o) == 1
      && |o| == |Prefix(timestamp, d)| + (if |chunk| == 0 then 0 else 3 * |chunk| - 1) + 1
      && ParseHexField(o[|Prefix(timestamp, d)|..|o| - 1]) == Some(chunk)
  {
    var p := Prefix(timestamp, d);
    var o := FormatBinary(chunk, d, timestamp);
    HexFieldShape(chunk);
    HexFieldRoundTrip(chunk);
    assert o == LogBlock(p, [HexField(chunk)]);
    LogBlockLineStarts(p, [HexField(chunk)]);
    LogBlockNewlines(p, [HexField(chunk)]);
    assert o[|p|..|o| - 1] == HexField(chunk);
  }

  lemma BinaryEmptyChunk(d: Direction, timestamp: string)
    ensures FormatBinary([], d, timestamp) == "[" + timestamp + "] " + Marker(d) + " \n"
  {
    assert HexField([]) == "";
  }

  // ---------------------------------------------------------------------
  // The whole formatter
  // ---------------------------------------------------------------------

  /** The marker tells the direction: "<--" for in, "-->" for out. */
  lemma MarkerIdentifiesDirection(d1: Direction, d2: Direction)
    ensures Marker(In) == "<--" && Marker(Out) == "-->"
    ensures Marker(d1) == Marker(d2) <==> d1 == d2
  {
  }

  /**
   * Every line formatChunk emits begins with `[ts] marker `; its output is
   * empty exactly for a text-mode chunk of line terminators only, and
   * otherwise newline-terminated; binary mode is always one line.
   */
  lemma ChunkShape(chunk: Chunk, d: Direction, mode: DisplayMode, timestamp: string)
    requires '\n' !in timestamp
    ensures var o := FormatChunk(chunk, d, mode, timestamp);
      && EveryLineStartsWith(o, Prefix(timestamp, d))
      && (o == "" <==> mode == Text && OnlyTerminators(DecodeText(chunk)))
      && (o == "" || EndsWithNewline(o))
      && (mode == Binary ==> CountChar('\n', o) == 1)
  {
    if mode == Text {
      TextShape(DecodeText(chunk), d, timestamp);
      TextSuppressedIff(DecodeText(chunk), d, timestamp);
    } else {
      BinaryShape(chunk, d, timestamp);
    }
  }

  /** b"AB\n" in text mode, direction out: one line "[ts] --> AB". */
  lemma ExampleTextOut(timestamp: string)
    ensures FormatChunk([0x41, 0x42, 0x0A], Out, Text, timestamp) == "[" + timestamp + "] --> AB\n"
  {
    var text := DecodeText([0x41, 0x42, 0x0A]);
    assert text == "AB\n";
    assert StripTrailingTerminator(text) == "AB";
    SplitNoNewline("AB");
    assert NonEmptyLines(["AB"]) == ["AB"];
    assert PrefixEach(Prefix(timestamp, Out), ["AB"]) == [Prefix(timestamp, Out) + "AB"];
  }

  /** b"\r\n" in text mode logs nothing. */
  lemma ExampleBlankText(d: Direction, timestamp: string)
    ensures FormatChunk([0x0D, 0x0A], d, Text, timestamp) == ""
  {
    var text := DecodeText([0x0D, 0x0A]);
    assert text == "\r\n";
    assert InTerminator(text, 0) && InTerminator(text, 1);
    TextSuppressedIff(text, d, timestamp);
  }

  /** b"\x00\x01\xff" in binary mode, direction in: one line "[ts] <-- 00 01 ff". */
  lemma ExampleBinaryIn(timestamp: string)
    ensures FormatChunk([0x00, 0x01, 0xFF], In, Binary, timestamp) == "[" + timestamp + "] <-- 00 01 ff\n"
  {
    var chunk: Chunk := [0x00, 0x01, 0xFF];
    assert HexPair(0x00) == "00";
    assert HexPair(0x01) == "01";
    assert HexPair(0xFF) == "ff";
    assert BytePairs(chunk) == ["00", "01", "ff"];
  }
}
