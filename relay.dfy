/**
 * The two `data` handlers of main. Node.js runs each handler to completion,
 * so a session is a sequence of atomic events; the bridge records what was
 * written to each port and to stdout. Port writes and stdout are logs that
 * only grow.
 */
module Relay {
  import opened Chunks
  import opened Format

  /** One `data` event on a port, with the timestamp formatChunk reads for it. */
  datatype Event =
    | TargetData(chunk: Chunk, timestamp: string)
    | PassthruData(chunk: Chunk, timestamp: string)

  /** The chunks received on the target port, in arrival order. */
  function FromTarget(trace: seq<Event>): seq<Chunk>
  {
    if |trace| == 0 then []
    else
      var last := trace[|trace| - 1];
      FromTarget(trace[..|trace| - 1]) + (if last.TargetData? then [last.chunk] else [])
  }

  /** The chunks received on the passthru port, in arrival order. */
  function FromPassthru(trace: seq<Event>): seq<Chunk>
  {
    if |trace| == 0 then []
    else
      var last := trace[|trace| - 1];
      FromPassthru(trace[..|trace| - 1]) + (if last.PassthruData? then [last.chunk] else [])
  }

  /** What one event writes to stdout: target chunks go out, passthru chunks come in. */
  function Logged(e: Event, inputType: DisplayMode, outputType: DisplayMode): string
  {
    match e
    case TargetData(chunk, ts) => FormatChunk(chunk, Out, outputType, ts)
    case PassthruData(chunk, ts) => FormatChunk(chunk, In, inputType, ts)
  }

  /** The blocks `log` gives each event, run together in event order. */
  function Concat(events: seq<Event>, log: Event -> string): string
  {
    if |events| == 0 then ""
    else Concat(events[..|events| - 1], log) + log(events[|events| - 1])
  }

  /** Everything written to stdout over a trace, in event order. */
  function Transcript(trace: seq<Event>, inputType: DisplayMode, outputType: DisplayMode): string
  {
    Concat(trace, e => Logged(e, inputType, outputType))
  }

  /** The serial bridge after some events: what it has written to each port and to stdout. */
  class Bridge {
    const inputType: DisplayMode
    const outputType: DisplayMode
    /** The chunks passed to passthru.write, in call order. */
    var toPassthru: seq<Chunk>
    /** The chunks passed to target.write, in call order. */
    var toTarget: seq<Chunk>
    var stdout: string
    /** The events handled so far. */
    ghost var trace: seq<Event>

    /** Each port has been written exactly the chunks received on the other one, and stdout is their log. */
    ghost predicate Valid()
      reads this
    {
      && toPassthru == FromTarget(trace)
      && toTarget == FromPassthru(trace)
      && stdout == Transcript(trace, inputType, outputType)
    }

    constructor (inputType: DisplayMode, outputType: DisplayMode)
      ensures Valid() && trace == []
      ensures this.inputType == inputType && this.outputType == outputType
      ensures toPassthru == [] && toTarget == [] && stdout == ""
    {
      this.inputType := inputType;
      this.outputType := outputType;
      toPassthru := [];
      toTarget := [];
      stdout := "";
      trace := [];
    }

    /** `target.on("data", ...)`: forward to passthru, log as out with the output type. */
    method OnTargetData(chunk: Chunk, timestamp: string)
      requires Valid()
      modifies this
      ensures Valid()
      ensures trace == old(trace) + [TargetData(chunk, timestamp)]
      ensures toPassthru == old(toPassthru) + [chunk]
      ensures toTarget == old(toTarget)
      ensures stdout == old(stdout) + FormatChunk(chunk, Out, outputType, timestamp)
      ensures Flatten(toPassthru) == Flatten(old(toPassthru)) + chunk
    {
      toPassthru := toPassthru + [chunk];
      stdout := stdout + FormatChunk(chunk, Out, outputType, timestamp);
      trace := trace + [TargetData(chunk, timestamp)];
      assert trace[..|trace| - 1] == old(trace);
      FlattenAppend(old(toPassthru), [chunk]);
      assert Flatten([chunk]) == chunk + Flatten([]);
    }

    /** `passthru.on("data", ...)`: forward to target, log as in with the input type. */
    method OnPassthruData(chunk: Chunk, timestamp: string)
      requires Valid()
      modifies this
      ensures Valid()
      ensures trace == old(trace) + [PassthruData(chunk, timestamp)]
      ensures toTarget == old(toTarget) + [chunk]
      ensures toPassthru == old(toPassthru)
      ensures stdout == old(stdout) + FormatChunk(chunk, In, inputType, timestamp)
      ensures Flatten(toTarget) == Flatten(old(toTarget)) + chunk
    {
      toTarget := toTarget + [chunk];
      stdout := stdout + FormatChunk(chunk, In, inputType, timestamp);
      trace := trace + [PassthruData(chunk, timestamp)];
      assert trace[..|trace| - 1] == old(trace);
      FlattenAppend(old(toTarget), [chunk]);
      assert Flatten([chunk]) == chunk + Flatten([]);
    }
  }

  // ---------------------------------------------------------------------
  // Properties of traces
  // ---------------------------------------------------------------------

  /** Every event is relayed exactly once: the two write logs together are as long as the trace. */
  lemma {:induction false} EachEventRelayedOnce(trace: seq<Event>)
    ensures |FromTarget(trace)| + |FromPassthru(trace)| == |trace|
  {
    if |trace| > 0 {
      EachEventRelayedOnce(trace[..|trace| - 1]);
    }
  }

  /** Splitting a trace splits the chunks received on the target port accordingly. */
  lemma {:induction false} FromTargetAppend(t1: seq<Event>, t2: seq<Event>)
    ensures FromTarget(t1 + t2) == FromTarget(t1) + FromTarget(t2)
    decreases |t2|
  {
    if |t2| == 0 {
      assert t1 + t2 == t1;
    } else {
      var t := t1 + t2;
      assert t[..|t| - 1] == t1 + t2[..|t2| - 1];
      FromTargetAppend(t1, t2[..|t2| - 1]);
    }
  }

  lemma {:induction false} FromPassthruAppend(t1: seq<Event>, t2: seq<Event>)
    ensures FromPassthru(t1 + t2) == FromPassthru(t1) + FromPassthru(t2)
    decreases |t2|
  {
    if |t2| == 0 {
      assert t1 + t2 == t1;
    } else {
      var t := t1 + t2;
      assert t[..|t| - 1] == t1 + t2[..|t2| - 1];
      FromPassthruAppend(t1, t2[..|t2| - 1]);
    }
  }

  lemma {:induction false} ConcatAppend(t1: seq<Event>, t2: seq<Event>, log: Event -> string)
    ensures Concat(t1 + t2, log) == Concat(t1, log) + Concat(t2, log)
    decreases |t2|
  {
    if |t2| == 0 {
      assert t1 + t2 == t1;
    } else {
      var t := t1 + t2;
      assert t[..|t| - 1] == t1 + t2[..|t2| - 1];
      assert t[|t| - 1] == t2[|t2| - 1];
      ConcatAppend(t1, t2[..|t2| - 1], log);
    }
  }

  /** Over traces, stdout is the log of the first part followed by the log of the second. */
  lemma TranscriptAppend(t1: seq<Event>, t2: seq<Event>, inputType: DisplayMode, outputType: DisplayMode)
    ensures Transcript(t1 + t2, inputType, outputType) == Transcript(t1, inputType, outputType) + Transcript(t2, inputType, outputType)
  {
    ConcatAppend(t1, t2, e => Logged(e, inputType, outputType));
  }

  /**
   * Per direction, first in first out: the k-th target event's chunk is
   * the k-th write to passthru, k counting only target events before it.
   */
  lemma TargetChunkPosition(trace: seq<Event>, i: nat)
    requires i < |trace| && trace[i].TargetData?
    ensures var k := |FromTarget(trace[..i])|;
      k < |FromTarget(trace)| && FromTarget(trace)[k] == trace[i].chunk
  {
    assert trace == trace[..i] + [trace[i]] + trace[i + 1..];
    FromTargetAppend(trace[..i] + [trace[i]], trace[i + 1..]);
    FromTargetAppend(trace[..i], [trace[i]]);
    assert FromTarget([trace[i]]) == [trace[i].chunk] by {
      assert [trace[i]][..0] == [];
    }
  }

  lemma PassthruChunkPosition(trace: seq<Event>, i: nat)
    requires i < |trace| && trace[i].PassthruData?
    ensures var k := |FromPassthru(trace[..i])|;
      k < |FromPassthru(trace)| && FromPassthru(trace)[k] == trace[i].chunk
  {
    assert trace == trace[..i] + [trace[i]] + trace[i + 1..];
    FromPassthruAppend(trace[..i] + [trace[i]], trace[i + 1..]);
    FromPassthruAppend(trace[..i], [trace[i]]);
    assert FromPassthru([trace[i]]) == [trace[i].chunk] by {
      assert [trace[i]][..0] == [];
    }
  }

  /** Passthru events interleaved anywhere change nothing that is written to passthru. */
  lemma {:induction false} PassthruEventsDoNotAffectPassthruWrites(t1: seq<Event>, extra: seq<Event>, t2: seq<Event>)
    requires forall j :: 0 <= j < |extra| ==> extra[j].PassthruData?
    ensures FromTarget(t1 + extra + t2) == FromTarget(t1 + t2)
  {
    FromTargetAppend(t1 + extra, t2);
    FromTargetAppend(t1, extra);
    FromTargetAppend(t1, t2);
    NoTargetChunks(extra);
  }

  lemma {:induction false} NoTargetChunks(events: seq<Event>)
    requires forall j :: 0 <= j < |events| ==> events[j].PassthruData?
    ensures FromTarget(events) == []
  {
    if |events| > 0 {
      NoTargetChunks(events[..|events| - 1]);
    }
  }

  /** Target events interleaved anywhere change nothing that is written to target. */
  lemma {:induction false} TargetEventsDoNotAffectTargetWrites(t1: seq<Event>, extra: seq<Event>, t2: seq<Event>)
    requires forall j :: 0 <= j < |extra| ==> extra[j].TargetData?
    ensures FromPassthru(t1 + extra + t2) == FromPassthru(t1 + t2)
  {
    FromPassthruAppend(t1 + extra, t2);
    FromPassthruAppend(t1, extra);
    FromPassthruAppend(t1, t2);
    NoPassthruChunks(extra);
  }

  lemma {:induction false} NoPassthruChunks(events: seq<Event>)
    requires forall j :: 0 <= j < |events| ==> events[j].TargetData?
    ensures FromPassthru(events) == []
  {
    if |events| > 0 {
      NoPassthruChunks(events[..|events| - 1]);
    }
  }
}
