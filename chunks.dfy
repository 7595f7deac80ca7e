/**
 * Byte chunks as the serial ports deliver them, and the two string
 * helpers the formatter builds on: Array.prototype.join and counting a
 * character.
 */
module Chunks {

  /** One octet of a Node.js Buffer. */
  newtype byte = x: int | 0 <= x < 256

  /** A Buffer delivered by one `data` event: any length, including zero. */
  type Chunk = seq<byte>

  /** The bytes of a sequence of chunks, in order. */
  function Flatten(cs: seq<Chunk>): (r: Chunk)
    ensures r == [] <==> forall i :: 0 <= i < |cs| ==> cs[i] == []
  {
    if |cs| == 0 then []
    else
      var rest := Flatten(cs[1..]);
      assert (forall i :: 0 <= i < |cs| ==> cs[i] == []) <==>
             cs[0] == [] && (forall i :: 0 <= i < |cs[1..]| ==> cs[1..][i] == []) by {
        if cs[0] == [] && (forall i :: 0 <= i < |cs[1..]| ==> cs[1..][i] == []) {
          forall i | 1 <= i < |cs| ensures cs[i] == [] {
            assert cs[i] == cs[1..][i - 1];
          }
        }
      }
      cs[0] + rest
  }

  lemma {:induction false} FlattenAppend(a: seq<Chunk>, b: seq<Chunk>)
    ensures Flatten(a + b) == Flatten(a) + Flatten(b)
  {
    if |a| == 0 {
      assert a + b == b;
    } else {
      assert (a + b)[1..] == a[1..] + b;
      FlattenAppend(a[1..], b);
    }
  }

  /** `parts.join(sep)`: the empty array joins to "", one part to itself. */
  function Join(parts: seq<string>, sep: string): string
  {
    if |parts| == 0 then ""
    else if |parts| == 1 then parts[0]
    else parts[0] + sep + Join(parts[1..], sep)
  }

  /** How often `c` occurs in `s`. */
  function CountChar(c: char, s: string): (n: nat)
    ensures n <= |s|
    ensures n == 0 <==> c !in s
  {
    if |s| == 0 then 0
    else (if s[0] == c then 1 else 0) + CountChar(c, s[1..])
  }

  lemma {:induction false} CountCharAppend(c: char, a: string, b: string)
    ensures CountChar(c, a + b) == CountChar(c, a) + CountChar(c, b)
  {
    if |a| == 0 {
      assert a + b == b;
    } else {
      assert (a + b)[1..] == a[1..] + b;
      CountCharAppend(c, a[1..], b);
    }
  }
}
