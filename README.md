# pantychef serial bridge — Dafny model

pantychef (`src/cli.ts`) sits between two serial ports, "target" and
"passthru". Every chunk received on one port is written unchanged to the
other, and a timestamped, directional log of the traffic goes to stdout.
This project models the parts of that file with real behaviour and proves
properties of them:

- **formatChunk** (`format.dfy`, with `lines.dfy` and `hex.dfy`): the pure
  formatter. In text mode it removes one trailing `\r?\n`, splits on
  `\r?\n`, and suppresses the block only when every line is empty; otherwise
  every line, blank ones included, is logged as `[ts] marker line`. In
  binary mode it writes one line holding a lowercase hex dump, two digits
  per byte, separated by single spaces. The timestamp is a parameter, so
  the formatter is a pure, deterministic function of its arguments.
- **The `.action` callback** (`config.dfy`): the options object is a class
  that the callback mutates. It rejects a type string other than `"text"` or
  `"binary"` (the first bad one is thrown, main never runs), applies
  `passthruBaudRate ||= targetBaudRate`, and replaces both baud rates by
  `parseInt` of them.
- **The two `data` handlers** (`relay.dfy`): a `Bridge` class whose methods
  are the handlers. Node.js runs each handler to completion, so a session
  is a sequence of atomic events. The class records the chunks written to
  each port and the text written to stdout. A ghost event trace ties them
  together.

`wrappers.dfy` holds Option/Result. `chunks.dfy` holds the byte type,
`Array.prototype.join` and a character count.

The model follows the code in these easily misread places:
- Text mode suppresses only chunks made of line terminators (`\n` or
  `\r\n`). A chunk of spaces is logged (`Format.WhitespaceIsLogged`).
- The `lines.length == 0` test never succeeds. The model keeps it and
  proves that a split always has at least one line.
- A write to a port has no error handling in the code, so a write is just an
  append to that port's log.
- The passthru baud rate falls back to the target's when the option is
  absent or when it is the empty string. This is how `||=` works.

## Model

| member | source | states |
|---|---|---|
| Lines.StripTrailingTerminator | src/cli.ts:18 | removes at most one trailing terminator and nothing but a suffix: the input is unchanged iff it does not end in `\n`, otherwise exactly `\r\n` is removed, or `\n` when no `\r` precedes it |
| Lines.SplitLines | src/cli.ts:18 | splitting on `\r?\n` always yields at least one line, and no line contains `\n` |
| Lines.SplitAllEmptyIff | src/cli.ts:18-19 | every split line is empty iff the text consists of line terminators only |
| Lines.StripKeepsOnlyTerminators | src/cli.ts:18 | stripping the trailing terminator preserves "only terminators" in both directions |
| Lines.SplitLineCount | src/cli.ts:18 | the split has one more line than the text has `\n` characters |
| Lines.JoinSplit | src/cli.ts:18 | joining the split lines with `\n` gives the text with every `\r\n` normalised to `\n` |
| Lines.SplitJoin | src/cli.ts:18 | lines without `\n`, none but the last ending in `\r`, split back out of their `\n`-join unchanged |
| Hex.HexPair | src/cli.ts:24 | a byte renders as two lowercase hex digits whose values give the byte back |
| Hex.ToHex | src/cli.ts:24 | `toString('hex')` has two characters per byte |
| Hex.PairsOfHex | src/cli.ts:24 | `match(/../g)` on the hex string yields each byte's pair, in order |
| Hex.Pairs | src/cli.ts:24 | the two-character groups of a string: one per pair of characters, group i being characters 2i and 2i+1 |
| Hex.MatchPairs | src/cli.ts:24 | `match(/../g)` gives null exactly when the string has fewer than two characters, and otherwise every pair in order |
| Hex.HexField | src/cli.ts:24 | the hex dump, with the empty-string fallback, equals the byte pairs joined by single spaces, which is "" for an empty chunk |
| Hex.HexFieldShape | src/cli.ts:24 | the field has 3n-1 characters for n >= 1 bytes and 0 for none; byte k occupies positions 3k and 3k+1, a space follows every pair but the last, and there is no `\n` |
| Hex.HexFieldRoundTrip | src/cli.ts:24 | parsing the digit pairs of the field recovers the chunk |
| Hex.ParsedFieldIsHexField | src/cli.ts:24 | conversely, only well-formed fields parse, and each is the field of the chunk it parses to |
| Chunks.Join | src/cli.ts:22 | `Array.prototype.join`: its properties are stated where it is used, by Lines.JoinSplit, Lines.SplitJoin, Format.JoinedIsLogBlock and Hex.HexField |
| Format.Prefix | src/cli.ts:22 | the `[${timestamp}] ${marker} ` template shared by both branches (also line 25): seven characters around the timestamp, with no `\n` when the timestamp has none |
| Format.Marker | src/cli.ts:16 | the marker is three characters and contains no `\n` |
| Format.MarkerIdentifiesDirection | src/cli.ts:16 | the marker is `<--` for in and `-->` for out, so it determines the direction |
| Format.DecodeText | src/cli.ts:18 | the decoded text has one character per byte, with the byte's code |
| Format.NonEmptyLines | src/cli.ts:19 | the filter of non-empty lines is empty iff every line is empty |
| Format.PrefixEach | src/cli.ts:22 | the map of the prefix over the lines; Format.JoinedIsLogBlock and Format.LogBlockLineStarts state what the program promises of it: one timestamp and marker in front of every line, in order |
| Format.JoinedIsLogBlock | src/cli.ts:22 | the `join('\n') + '\n'` of the prefixed lines equals one `prefix + line + "\n"` per line, in order |
| Format.LogBlockNewlines | src/cli.ts:22 | a block has exactly one `\n` per logged line |
| Format.LogBlockLineStarts | src/cli.ts:22 | every line of a block begins with the prefix |
| Format.FormatText | src/cli.ts:17-22 | the text branch; Format.TextSuppressedIff, Format.TextBlock and Format.TextShape state what it returns |
| Format.TextSuppressedIff | src/cli.ts:17-21 | text mode returns "" exactly when the text consists of line terminators only |
| Format.TextBlock | src/cli.ts:17-22 | otherwise it logs every split line, empty ones included, in order, under one prefix |
| Format.WhitespaceIsLogged | src/cli.ts:19 | a text that holds a space is never suppressed |
| Format.TextShape | src/cli.ts:15-22 | text output is "" or ends in `\n`, has one `\n` per split line, and every line starts with `[ts] marker ` |
| Format.FormatBinary | src/cli.ts:23-25 | the binary branch; Format.BinaryShape and Format.BinaryEmptyChunk state what it returns |
| Format.BinaryShape | src/cli.ts:23-25 | binary output is exactly one prefixed, `\n`-terminated line of the predicted length whose field parses back to the chunk |
| Format.BinaryEmptyChunk | src/cli.ts:24-25 | an empty chunk in binary mode yields `[ts] marker \n` |
| Format.FormatChunk | src/cli.ts:10-27 | formatChunk with the timestamp as a parameter; chooses the branch on the display mode; Format.ChunkShape states what it returns |
| Format.ChunkShape | src/cli.ts:10-27 | every emitted line starts with `[ts] marker `; output is empty iff the mode is text and the chunk holds only terminators; otherwise it ends in `\n`; binary output has exactly one `\n` |
| Format.ExampleTextOut | src/cli.ts:17-22 | `AB\n` in text mode, out, gives `[ts] --> AB\n` |
| Format.ExampleBinaryIn | src/cli.ts:23-25 | bytes 00 01 ff in binary mode, in, give `[ts] <-- 00 01 ff\n` |
| Config.ParseMode | src/cli.ts:78 | a type string is accepted iff it is "text" or "binary", and it reads as the mode with that name |
| Config.ModeNameRoundTrip | src/cli.ts:78 | each display mode's name reads back as that mode |
| Config.CheckTypes | src/cli.ts:77-81 | succeeds iff both type strings are mode names; otherwise fails with the input type if it is bad, else with the output type |
| Config.Truthy | src/cli.ts:82 | the falsiness test of the logical-or assignment: undefined, "", NaN and 0 are falsy; its effect is stated by Config.Options.Action |
| Config.LeadingDigits | src/cli.ts:83-84 | the length of the run of decimal digits at the start of a string, up to the first non-digit |
| Config.ParseDecimal | src/cli.ts:83-84 | `parseInt` of a string, read as decimal: NaN exactly when the string does not begin with a digit |
| Config.ParseInt | src/cli.ts:83-84 | `parseInt` of a property: strings by Config.ParseDecimal, undefined and NaN give NaN; its use is stated by Config.Options.Action |
| Config.ParseDecimalLeadingZeros | src/cli.ts:83-84 | leading zeros do not change the decimal reading ("09600" reads as 9600), whatever non-digit text follows |
| Config.ParseDecimalRoundTrip | src/cli.ts:83-84 | parsing a decimal numeral gives its value, whatever non-digit text follows |
| Config.Options.constructor | src/cli.ts:70-75 | required options are strings; an omitted passthru baud rate is undefined |
| Config.Options.Action | src/cli.ts:76-94 | fails, unchanged and before main, iff a type string is invalid; otherwise applies the logical-or default, replaces both baud rates with their parsed values, and returns main's arguments; an absent or empty passthru rate becomes the target's |
| Relay.Logged | src/cli.ts:54-61 | the stdout block of one event: a target chunk formatted as out with the output type (line 56), a passthru chunk as in with the input type (line 60); stated by the two handler methods |
| Relay.Transcript | src/cli.ts:54-61 | everything written to stdout over a trace, in event order; see Relay.TranscriptAppend |
| Relay.Bridge.Valid | src/cli.ts:54-61 | the invariant every handler keeps: passthru has been written exactly the chunks received on target, target exactly those received on passthru, in order, and stdout is the transcript of the trace |
| Relay.Bridge.constructor | src/cli.ts:54-61 | the bridge starts with empty port logs and an empty stdout |
| Relay.Bridge.OnTargetData | src/cli.ts:54-57 | a target chunk is appended unchanged to the passthru log, never to the target log, and stdout gains its out-direction block in the output type |
| Relay.Bridge.OnPassthruData | src/cli.ts:58-61 | a passthru chunk is appended unchanged to the target log, never to the passthru log, and stdout gains its in-direction block in the input type |
| Relay.EachEventRelayedOnce | src/cli.ts:54-61 | the two write logs together hold exactly one chunk per event |
| Relay.FromTargetAppend | src/cli.ts:54-57 | the passthru writes of two consecutive parts of a trace are those of each part, in order |
| Relay.FromPassthruAppend | src/cli.ts:58-61 | the target writes of two consecutive parts of a trace are those of each part, in order |
| Relay.TranscriptAppend | src/cli.ts:54-61 | stdout for two consecutive parts of a trace is the log of the first followed by that of the second |
| Relay.TargetChunkPosition | src/cli.ts:54-57 | the k-th target event's chunk is the k-th chunk written to passthru, so each direction is first in, first out |
| Relay.PassthruChunkPosition | src/cli.ts:58-61 | the k-th passthru event's chunk is the k-th chunk written to target |
| Relay.PassthruEventsDoNotAffectPassthruWrites | src/cli.ts:54-61 | passthru events interleaved anywhere do not change what passthru is written |
| Relay.TargetEventsDoNotAffectTargetWrites | src/cli.ts:54-61 | target events interleaved anywhere do not change what target is written |

## Left out

- Opening the serial ports and their `write` calls (src/cli.ts:45-52, 55, 59) are foreign I/O. A write is modelled as an append to a per-port log. Write errors and backpressure are not modelled, because the code does not handle them.
- `console.log` of the settings banner (src/cli.ts:37-43) is output I/O. It is not modelled, and relay stdout starts empty.
- `new Date().toISOString()` (src/cli.ts:15) reads the wall clock. The timestamp is a parameter; the shape lemmas require only that it contains no `\n`, which an ISO-8601 string never does.
- Format.DecodeText: models `toString('utf-8')` only on ASCII bytes. It maps each byte to the character with the same code, so bytes 0x80 and above are not decoded as UTF-8 with U+FFFD replacement. The text-mode lemmas hold for any decoded text.
- The regular expressions and `String.split` are written out as recursive functions, not modelled as a regex engine. `/../g` is modelled as plain two-character groups, which agrees on hex strings.
- Config.ParseDecimal: models `parseInt` as reading the leading decimal digits, with NaN when there are none. Leading whitespace, a sign and the `0x` prefix are not modelled. The value is an exact natural number, while `parseInt` returns a double, so numerals above 2^53 are not rounded as they are in the source.
- Command-line parsing by `commander`, reading `package.json` and top-level `await` (src/cli.ts:64-75, 95) are plumbing. The options object is built by the `Options` constructor.
- Concurrency: Node.js runs each `data` handler atomically, so a session is modelled as a sequence of events. Event-loop scheduling itself is not modelled.
