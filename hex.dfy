/**
 * The binary-mode payload of formatChunk: `chunk.toString('hex')`, cut
 * into two-character groups by `match(/../g)`, joined with single spaces,
 * with `|| ''` covering the empty chunk. Also a parser for that field, so
 * that the hex dump can be shown to be lossless.
 */
module Hex {
  import opened Wrappers
  import opened Chunks

  /** The lowercase hexadecimal digit of a value below 16. */
  function HexDigit(k: int): (c: char)
    requires 0 <= k < 16
    ensures IsLowerHexDigit(c)
  {
    if k < 10 then ('0' as int + k) as char else ('a' as int + k - 10) as char
  }

  /** The digits Buffer's 'hex' encoding produces. */
  predicate IsLowerHexDigit(c: char)
  {
    ('0' <= c <= '9') || ('a' <= c <= 'f')
  }

  function DigitValue(c: char): (k: int)
    requires IsLowerHexDigit(c)
    ensures 0 <= k < 16 && HexDigit(k) == c
  {
    if c <= '9' then c as int - '0' as int else c as int - 'a' as int + 10
  }

  lemma DigitOfHexDigit(k: int)
    requires 0 <= k < 16
    ensures DigitValue(HexDigit(k)) == k
  {
  }

  /** The two digits of one byte, high nibble first. */
  function HexPair(b: byte): (p: string)
    ensures |p| == 2 && IsLowerHexDigit(p[0]) && IsLowerHexDigit(p[1])
    ensures DigitValue(p[0]) * 16 + DigitValue(p[1]) == b as int
  {
    DigitOfHexDigit(b as int / 16);
    DigitOfHexDigit(b as int % 16);
    [HexDigit(b as int / 16), HexDigit(b as int % 16)]
  }

  /** `chunk.toString('hex')`: the byte pairs run together. */
  function ToHex(chunk: Chunk): (s: string)
    ensures |s| == 2 * |chunk|
  {
    if |chunk| == 0 then "" else HexPair(chunk[0]) + ToHex(chunk[1..])
  }

  /**
   * The consecutive two-character groups of `s` (an odd last character is
   * dropped), as `/../g` yields them on a string of hex digits, which holds
   * no line terminator for `.` to refuse.
   */
  function Pairs(s: string): (ps: seq<string>)
    ensures |ps| == |s| / 2
    ensures forall i :: 0 <= i < |ps| ==> ps[i] == s[2 * i..2 * i + 2]
    decreases |s|
  {
    if |s| < 2 then []
    else
      var rest := Pairs(s[2..]);
      assert forall i :: 1 <= i <= |rest| ==> rest[i - 1] == s[2 * i..2 * i + 2] by {
        forall i | 1 <= i <= |rest| ensures rest[i - 1] == s[2 * i..2 * i + 2] {
          assert s[2..][2 * (i - 1)..2 * (i - 1) + 2] == s[2 * i..2 * i + 2];
        }
      }
      [s[..2]] + rest
  }

  /** `s.match(/../g)`: null (None) when there is no match at all, else every pair in order. */
  function MatchPairs(s: string): (r: Option<seq<string>>)
    ensures r.None? <==> |s| < 2
    ensures r.Some? ==> |r.value| == |s| / 2
    ensures r.Some? ==> forall i :: 0 <= i < |r.value| ==> r.value[i] == s[2 * i..2 * i + 2]
  {
    var ps := Pairs(s);
    if |ps| == 0 then None else Some(ps)
  }

  /**
   * `chunk.toString('hex').match(/../g)?.join(' ') || ''`. A Some result
   * joins a non-empty array of two-character strings, which is never the
   * falsy "", so `|| ''` only acts on the None case.
   */
  function HexField(chunk: Chunk): (f: string)
    ensures f == Join(BytePairs(chunk), " ")
  {
    PairsOfHex(chunk);
    match MatchPairs(ToHex(chunk))
    case None => ""
    case Some(ps) => Join(ps, " ")
  }

  /** The pair of every byte, in order: the reference reading of the dump. */
  function BytePairs(chunk: Chunk): (ps: seq<string>)
    ensures |ps| == |chunk|
    ensures forall k :: 0 <= k < |chunk| ==> ps[k] == HexPair(chunk[k])
  {
    seq(|chunk|, k requires 0 <= k < |chunk| => HexPair(chunk[k]))
  }

  /** Cutting the hex string into pairs gives back the pair of each byte. */
  lemma {:induction false} PairsOfHex(chunk: Chunk)
    ensures Pairs(ToHex(chunk)) == BytePairs(chunk)
  {
    if |chunk| > 0 {
      var s := ToHex(chunk);
      assert s[..2] == HexPair(chunk[0]);
      assert s[2..] == ToHex(chunk[1..]);
      PairsOfHex(chunk[1..]);
      assert BytePairs(chunk) == [HexPair(chunk[0])] + BytePairs(chunk[1..]);
    }
  }

  /** Byte k's two digits sit at 3k and 3k+1; a space follows every pair but the last. */
  lemma {:induction false} JoinedPairsLayout(chunk: Chunk)
    ensures var f := Join(BytePairs(chunk), " ");
      && |f| == (if |chunk| == 0 then 0 else 3 * |chunk| - 1)
      && (forall k :: 0 <= k < |chunk| ==> f[3 * k] == HexPair(chunk[k])[0] && f[3 * k + 1] == HexPair(chunk[k])[1])
      && (forall k :: 0 <= k < |chunk| - 1 ==> f[3 * k + 2] == ' ')
  {
    if |chunk| > 1 {
      var tail := chunk[1..];
      JoinedPairsLayout(tail);
      assert BytePairs(chunk)[1..] == BytePairs(tail);
      var g := Join(BytePairs(tail), " ");
      var f := Join(BytePairs(chunk), " ");
      assert f == HexPair(chunk[0]) + " " + g;
      forall k | 1 <= k < |chunk|
        ensures f[3 * k] == HexPair(chunk[k])[0] && f[3 * k + 1] == HexPair(chunk[k])[1]
      {
        assert f[3 * k] == g[3 * (k - 1)];
        assert f[3 * k + 1] == g[3 * (k - 1) + 1];
        assert chunk[k] == tail[k - 1];
      }
      forall k | 1 <= k < |chunk| - 1
        ensures f[3 * k + 2] == ' '
      {
        assert f[3 * k + 2] == g[3 * (k - 1) + 2];
      }
    }
  }

  /** The hex field: 3n-1 characters for n >= 1 bytes, none for 0, lowercase digits and single spaces. */
  lemma HexFieldShape(chunk: Chunk)
    ensures |HexField(chunk)| == (if |chunk| == 0 then 0 else 3 * |chunk| - 1)
    ensures forall k :: 0 <= k < |chunk| ==> HexField(chunk)[3 * k.. 3 * k + 2] == HexPair(chunk[k])
    ensures forall k :: 0 <= k < |chunk| - 1 ==> HexField(chunk)[3 * k + 2] == ' '
    ensures '\n' !in HexField(chunk)
  {
    JoinedPairsLayout(chunk);
    var f := HexField(chunk);
    forall k | 0 <= k < |chunk| ensures f[3 * k.. 3 * k + 2] == HexPair(chunk[k]) {
      assert f[3 * k.. 3 * k + 2] == [f[3 * k], f[3 * k + 1]];
    }
    forall i | 0 <= i < |f| ensures f[i] != '\n' {
      var k := i / 3;
      if i % 3 == 2 {
        assert f[3 * k + 2] == ' ';
      } else if i % 3 == 0 {
        assert IsLowerHexDigit(f[3 * k]);
      } else {
        assert IsLowerHexDigit(f[3 * k + 1]);
      }
    }
  }

  /** Reads one or more pairs of lowercase hex digits, each after the first preceded by one space. */
  function ParsePairs(s: string): Option<Chunk>
    decreases |s|
  {
    if |s| < 2 || !IsLowerHexDigit(s[0]) || !IsLowerHexDigit(s[1]) then None
    else
      var b := (DigitValue(s[0]) * 16 + DigitValue(s[1])) as byte;
      if |s| == 2 then Some([b])
      else if s[2] != ' ' then None
      else match ParsePairs(s[3..])
        case None => None
        case Some(rest) => Some([b] + rest)
  }

  /** Reads a hex field back into bytes; the empty field is the empty chunk. */
  function ParseHexField(s: string): Option<Chunk>
  {
    if |s| == 0 then Some([]) else ParsePairs(s)
  }

  /** Parsing the digit pairs of the dump recovers the chunk. */
  lemma {:induction false} ParseJoinedPairs(chunk: Chunk)
    ensures ParseHexField(Join(BytePairs(chunk), " ")) == Some(chunk)
  {
    if |chunk| == 1 {
      var p := HexPair(chunk[0]);
      assert Join(BytePairs(chunk), " ") == p;
      assert ParsePairs(p) == Some([chunk[0]]);
      assert chunk == [chunk[0]];
    } else if |chunk| > 1 {
      var tail := chunk[1..];
      assert BytePairs(chunk)[1..] == BytePairs(tail);
      var g := Join(BytePairs(tail), " ");
      var f := Join(BytePairs(chunk), " ");
      assert f == HexPair(chunk[0]) + " " + g;
      assert f[3..] == g;
      ParseJoinedPairs(tail);
      assert [chunk[0]] + tail == chunk;
    }
  }

  lemma HexFieldRoundTrip(chunk: Chunk)
    ensures ParseHexField(HexField(chunk)) == Some(chunk)
  {
    ParseJoinedPairs(chunk);
  }

  /** Only a well-formed hex field parses, and it is the field of what it parses to. */
  lemma {:induction false} ParsedFieldIsHexField(s: string, chunk: Chunk)
    requires ParseHexField(s) == Some(chunk)
    ensures HexField(chunk) == s
  {
    if |s| > 0 {
      ParsedPairsAreJoined(s, chunk);
    }
  }

  lemma {:induction false} ParsedPairsAreJoined(s: string, chunk: Chunk)
    requires ParsePairs(s) == Some(chunk)
    ensures Join(BytePairs(chunk), " ") == s
    decreases |s|
  {
    var b := (DigitValue(s[0]) * 16 + DigitValue(s[1])) as byte;
    assert HexPair(b) == s[..2] by {
      assert DigitValue(HexPair(b)[0]) * 16 + DigitValue(HexPair(b)[1]) == DigitValue(s[0]) * 16 + DigitValue(s[1]);
      NibblesUnique(DigitValue(HexPair(b)[0]), DigitValue(HexPair(b)[1]), DigitValue(s[0]), DigitValue(s[1]));
    }
    if |s| == 2 {
      assert chunk == [b];
    } else {
      var rest := ParsePairs(s[3..]).value;
      assert chunk == [b] + rest;
      ParsedPairsAreJoined(s[3..], rest);
      assert chunk[1..] == rest;
      assert BytePairs(chunk)[1..] == BytePairs(rest);
      assert s == s[..2] + " " + s[3..];
    }
  }

  lemma NibblesUnique(h1: int, l1: int, h2: int, l2: int)
    requires 0 <= h1 < 16 && 0 <= l1 < 16 && 0 <= h2 < 16 && 0 <= l2 < 16
    requires h1 * 16 + l1 == h2 * 16 + l2
    ensures h1 == h2 && l1 == l2
  {
  }
}
