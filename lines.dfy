/**
 * The text-mode line handling of formatChunk: removing one trailing line
 * terminator (the pattern /\r?\n$/) and splitting on /\r?\n/, written out
 * as functions instead of a regular-expression engine.
 */
module Lines {
  import opened Chunks

  /** True when `s` ends with a line feed. */
  predicate EndsWithNewline(s: string)
  {
    |s| > 0 && s[|s| - 1] == '\n'
  }

  /**
   * `s.replace(/\r?\n$/, '')`: without the `m` flag `$` anchors at the end
   * of the input only, and the leftmost match is "\r\n" when the input ends
   * with it.
   */
  function StripTrailingTerminator(s: string): (r: string)
    ensures r <= s && |s| - 2 <= |r|
    ensures !EndsWithNewline(s) <==> r == s
    ensures EndsWithNewline(s) ==>
              s == r + "\r\n" ||
              (s == r + "\n" && !(|r| > 0 && r[|r| - 1] == '\r'))
  {
    if |s| >= 2 && s[|s| - 2] == '\r' && s[|s| - 1] == '\n' then s[..|s| - 2]
    else if |s| >= 1 && s[|s| - 1] == '\n' then s[..|s| - 1]
    else s
  }

  /**
   * `s.split(/\r?\n/)`: the pieces between matches of "\r\n" or "\n",
   * scanned from the left. A '\r' not followed by '\n' stays in its line.
   * The split of "" is [""], so there is always at least one line.
   */
  function SplitLines(s: string): (lines: seq<string>)
    ensures |lines| >= 1
    ensures forall i :: 0 <= i < |lines| ==> '\n' !in lines[i]
    decreases |s|
  {
    if |s| == 0 then [""]
    else if s[0] == '\n' then [""] + SplitLines(s[1..])
    else if |s| >= 2 && s[0] == '\r' && s[1] == '\n' then [""] + SplitLines(s[2..])
    else
      var rest := SplitLines(s[1..]);
      [[s[0]] + rest[0]] + rest[1..]
  }

  /**
   * `s` consists of line terminators only: every character is a '\n' or a
   * '\r' immediately followed by '\n' (the language (\r?\n)*).
   */
  predicate OnlyTerminators(s: string)
  {
    forall i :: 0 <= i < |s| ==> InTerminator(s, i)
  }

  /** The character at `i` is a '\n' or the '\r' of a "\r\n". */
  predicate InTerminator(s: string, i: nat)
    requires i < |s|
  {
    s[i] == '\n' || (s[i] == '\r' && i + 1 < |s| && s[i + 1] == '\n')
  }

  /** Every line is the empty string. */
  predicate AllEmpty(lines: seq<string>)
  {
    forall i :: 0 <= i < |lines| ==> lines[i] == ""
  }

  /** `s` with every "\r\n" replaced by "\n": the text the split lines rejoin to. */
  function CrlfToLf(s: string): (r: string)
    ensures '\r' !in s ==> r == s
    decreases |s|
  {
    if |s| == 0 then ""
    else if |s| >= 2 && s[0] == '\r' && s[1] == '\n' then "\n" + CrlfToLf(s[2..])
    else [s[0]] + CrlfToLf(s[1..])
  }

  /** Every line of the split is empty exactly when `s` holds nothing but terminators. */
  lemma {:induction false} SplitAllEmptyIff(s: string)
    ensures AllEmpty(SplitLines(s)) <==> OnlyTerminators(s)
    decreases |s|
  {
    if |s| == 0 {
    } else if s[0] == '\n' {
      SplitAllEmptyIff(s[1..]);
      OnlyTerminatorsTail(s, 1);
      AllEmptyCons(SplitLines(s[1..]));
    } else if |s| >= 2 && s[0] == '\r' && s[1] == '\n' {
      SplitAllEmptyIff(s[2..]);
      OnlyTerminatorsTail(s, 2);
      AllEmptyCons(SplitLines(s[2..]));
    } else {
      var rest := SplitLines(s[1..]);
      assert SplitLines(s)[0] == [s[0]] + rest[0];
      assert !InTerminator(s, 0);
    }
  }

  lemma AllEmptyCons(lines: seq<string>)
    ensures AllEmpty([""] + lines) <==> AllEmpty(lines)
  {
    if AllEmpty([""] + lines) {
      forall i | 0 <= i < |lines| ensures lines[i] == "" {
        assert lines[i] == ([""] + lines)[i + 1];
      }
    }
  }

  /** Removing a leading terminator of length k keeps OnlyTerminators unchanged. */
  lemma OnlyTerminatorsTail(s: string, k: nat)
    requires k == 1 || k == 2
    requires |s| >= k && s[k - 1] == '\n' && (k == 2 ==> s[0] == '\r')
    ensures OnlyTerminators(s) <==> OnlyTerminators(s[k..])
  {
    if OnlyTerminators(s[k..]) {
      forall i | 0 <= i < |s|
        ensures InTerminator(s, i)
      {
        if i >= k {
          assert InTerminator(s[k..], i - k);
          assert s[i] == s[k..][i - k];
          if s[i] != '\n' {
            assert s[i + 1] == s[k..][i - k + 1];
          }
        }
      }
    }
    if OnlyTerminators(s) {
      forall j | 0 <= j < |s[k..]|
        ensures InTerminator(s[k..], j)
      {
        assert InTerminator(s, j + k);
        assert s[k..][j] == s[j + k];
        if j + 1 < |s[k..]| {
          assert s[k..][j + 1] == s[j + 1 + k];
        }
      }
    }
  }

  /** Stripping the trailing terminator neither creates nor destroys "only terminators". */
  lemma StripKeepsOnlyTerminators(s: string)
    ensures OnlyTerminators(StripTrailingTerminator(s)) <==> OnlyTerminators(s)
  {
    var r := StripTrailingTerminator(s);
    if r != s {
      var t := s[|r|..];
      assert s == r + t;
      if OnlyTerminators(s) {
        forall i | 0 <= i < |r|
          ensures InTerminator(r, i)
        {
          assert InTerminator(s, i);
          assert r[i] == s[i];
          if r[i] != '\n' {
            assert s[i + 1] == '\n';
            assert i + 1 < |r|;
          }
        }
      }
      if OnlyTerminators(r) {
        forall i | 0 <= i < |s|
          ensures InTerminator(s, i)
        {
          if i < |r| { assert s[i] == r[i]; assert InTerminator(r, i); }
        }
      }
    }
  }

  /** There is one more line than there are line feeds: each terminator holds exactly one '\n'. */
  lemma {:induction false} SplitLineCount(s: string)
    ensures |SplitLines(s)| == CountChar('\n', s) + 1
    decreases |s|
  {
    if |s| == 0 {
    } else if s[0] == '\n' {
      SplitLineCount(s[1..]);
    } else if |s| >= 2 && s[0] == '\r' && s[1] == '\n' {
      SplitLineCount(s[2..]);
      assert s[1..][1..] == s[2..];
    } else {
      SplitLineCount(s[1..]);
    }
  }

  /** Rejoining the split lines with "\n" gives the input with "\r\n" normalised to "\n". */
  lemma {:induction false} JoinSplit(s: string)
    ensures Join(SplitLines(s), "\n") == CrlfToLf(s)
    decreases |s|
  {
    if |s| == 0 {
    } else if s[0] == '\n' {
      JoinSplit(s[1..]);
      var lines := SplitLines(s);
      assert lines[1..] == SplitLines(s[1..]);
    } else if |s| >= 2 && s[0] == '\r' && s[1] == '\n' {
      JoinSplit(s[2..]);
      var lines := SplitLines(s);
      assert lines[1..] == SplitLines(s[2..]);
    } else {
      JoinSplit(s[1..]);
      var rest := SplitLines(s[1..]);
      var lines := SplitLines(s);
      if |rest| == 1 {
        assert lines == [[s[0]] + rest[0]];
      } else {
        assert lines[1..] == rest[1..];
        assert Join(rest, "\n") == rest[0] + "\n" + Join(rest[1..], "\n");
      }
    }
  }

  /** Lines with no '\n', and no '\r' at the end of any but the last, split back out of their join. */
  lemma {:induction false} SplitJoin(lines: seq<string>)
    requires |lines| >= 1
    requires forall i :: 0 <= i < |lines| ==> '\n' !in lines[i]
    requires forall i :: 0 <= i < |lines| - 1 ==> !(|lines[i]| > 0 && lines[i][|lines[i]| - 1] == '\r')
    ensures SplitLines(Join(lines, "\n")) == lines
    decreases |lines|, |lines[0]|
  {
    var line := lines[0];
    if |lines| == 1 {
      SplitNoNewline(line);
    } else if |line| == 0 {
      var s := Join(lines, "\n");
      assert s == "\n" + Join(lines[1..], "\n");
      assert s[1..] == Join(lines[1..], "\n");
      SplitJoin(lines[1..]);
      assert lines == [""] + lines[1..];
    } else {
      var s := Join(lines, "\n");
      var shorter := [line[1..]] + lines[1..];
      assert Join(shorter, "\n") == line[1..] + "\n" + Join(lines[1..], "\n");
      assert s == [line[0]] + Join(shorter, "\n");
      assert s[1..] == Join(shorter, "\n");
      assert line[0] != '\n';
      assert !(|s| >= 2 && s[0] == '\r' && s[1] == '\n') by {
        if |line| == 1 {
          assert line[0] != '\r';
        } else {
          assert s[1] == line[1];
        }
      }
      assert '\n' !in line[1..] by {
        assert forall j :: 0 <= j < |line[1..]| ==> line[1..][j] == line[j + 1];
      }
      assert forall i :: 1 <= i < |shorter| ==> shorter[i] == lines[i];
      assert |line[1..]| > 0 ==> line[1..][|line[1..]| - 1] == line[|line| - 1];
      SplitJoin(shorter);
      assert [line[0]] + line[1..] == line;
      assert lines == [line] + shorter[1..];
    }
  }

  /** A string without '\n' is a single line. */
  lemma {:induction false} SplitNoNewline(s: string)
    requires '\n' !in s
    ensures SplitLines(s) == [s]
    decreases |s|
  {
    if |s| > 0 {
      assert s[0] != '\n';
      assert '\n' !in s[1..] by {
        assert forall j :: 0 <= j < |s[1..]| ==> s[1..][j] == s[j + 1];
      }
      assert !(|s| >= 2 && s[0] == '\r' && s[1] == '\n');
      SplitNoNewline(s[1..]);
      assert [s[0]] + s[1..] == s;
    }
  }
}
