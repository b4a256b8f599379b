/** `agy_runipd._read_agy_step_transcript`: an incremental reader of append-only step logs, with a cache and
    an offset kept on the tracker, against a plain scan of the log. */
module Transcript {
  import opened Wrappers

  /** A step index as the cache sees it. A JSON list or object equals no requested index and cannot be a key. */
  datatype Index = Key(value: int) | Unhashable

  /** One line of a log: noise the reader skips, or a JSON object. */
  datatype Line = Noise | Record(index: Option<Index>, body: string)

  predicate HasKey(line: Line, k: int) {
    line.Record? && line.index == Some(Key(k))
  }

  predicate Breaks(line: Line) {
    line.Record? && line.index == Some(Unhashable)
  }

  /** What a reader without a tracker returns. */
  function Scan(log: seq<Line>, k: int): Option<Line> {
    if log == [] then None else if HasKey(log[0], k) then Some(log[0]) else Scan(log[1..], k)
  }

  // ----- one read -----

  datatype Read =
    | Found(line: Line, cache: map<int, Line>, used: nat)
    | Ended(cache: map<int, Line>)
    | Broken(cache: map<int, Line>)

  function Later(r: Read): Read {
    if r.Found? then r.(used := r.used + 1) else r
  }

  /** Reading on from the offset, filling the cache on the way. `fault` is the number of lines after which
      reading itself fails. */
  function ReadOn(lines: seq<Line>, cache: map<int, Line>, k: int, fault: Option<nat>): Read {
    if fault == Some(0) then Broken(cache)
    else if lines == [] then Ended(cache)
    else
      var line, rest, later := lines[0], lines[1..], if fault.Some? then Some(fault.value - 1) else None;
      if !line.Record? || line.index.None? then Later(ReadOn(rest, cache, k, later))
      else if line.index.value.Unhashable? then Broken(cache)
      else
        var more := cache[line.index.value.value := line];
        if line.index.value.value == k then Found(line, more, 1) else Later(ReadOn(rest, more, k, later))
  }

  /** What the tracker holds. */
  datatype Reader = Reader(cid: Option<string>, cache: map<int, Line>, offset: nat)

  const FRESH := Reader(None, map[], 0)

  type Logs = map<string, seq<Line>>

  datatype Looked = Looked(reader: Reader, answer: Option<Line>)

  function Opened(r: Reader, conversation: string): Reader {
    if r.cid == Some(conversation) then r else Reader(Some(conversation), map[], 0)
  }

  /** One lookup; a conversation without an entry has no log file. */
  function Look(r: Reader, logs: Logs, conversation: string, step: Option<int>, fault: Option<nat>): Looked {
    if conversation == "" || step.None? then Looked(r, None)
    else if r.cid == Some(conversation) && step.value in r.cache then Looked(r, Some(r.cache[step.value]))
    else if conversation !in logs then Looked(r, None)
    else
      var open, log := Opened(r, conversation), logs[conversation];
      if open.offset > |log| then Looked(open, None)
      else
        match ReadOn(log[open.offset..], open.cache, step.value, fault)
        case Found(line, cache, used) => Looked(open.(cache := cache, offset := open.offset + used), Some(line))
        case Broken(cache) => Looked(open.(cache := cache), None)
        case Ended(cache) =>
          Looked(open.(cache := cache, offset := |log|), if step.value in cache then Some(cache[step.value]) else None)
  }

  class StepReader {
    var cid: Option<string>
    var cache: map<int, Line>
    var offset: nat

    ghost function Snapshot(): Reader
      reads this
    {
      Reader(cid, cache, offset)
    }

    constructor ()
      ensures Snapshot() == FRESH
    {
      cid, cache, offset := None, map[], 0;
    }

    method Lookup(logs: Logs, conversation: string, step: Option<int>, fault: Option<nat>) returns (answer: Option<Line>)
      modifies this
      ensures Looked(Snapshot(), answer) == Look(old(Snapshot()), logs, conversation, step, fault)
    {
      hide ReadOn;
      answer := None;
      if conversation == "" || step.None? {
        return;
      }
      if cid == Some(conversation) && step.value in cache {
        return Some(cache[step.value]);
      }
      if conversation !in logs {
        return;
      }
      if cid != Some(conversation) {
        cid, cache, offset := Some(conversation), map[], 0;
      }
      var log := logs[conversation];
      if offset > |log| {
        return;
      }
      ghost var start := Snapshot();
      var n := offset;
      var left := fault;
      while true
        invariant offset <= n <= |log|
        invariant offset == start.offset && cid == start.cid && answer.None?
        invariant ReadOn(log[offset..], start.cache, step.value, fault)
               == Advanced(ReadOn(log[n..], cache, step.value, left), n - offset)
        decreases |log| - n
      {
        ReadStep(log[n..], cache, step.value, left, n - offset);
        if left == Some(0) {
          return;
        }
        if n == |log| {
          break;
        }
        assert log[n..][0] == log[n] && log[n..][1..] == log[n + 1..];
        var line := log[n];
        n := n + 1;
        left := if left.Some? then Some(left.value - 1) else None;
        if line.Record? && line.index.Some? {
          if line.index.value.Unhashable? {
            return;
          }
          cache := cache[line.index.value.value := line];
          if line.index.value.value == step.value {
            offset := n;
            return Some(line);
          }
        }
      }
      offset := n;
      if step.value in cache {
        answer := Some(cache[step.value]);
      }
    }
  }

  function Advanced(r: Read, n: nat): Read {
    if r.Found? then r.(used := r.used + n) else r
  }

  lemma ReadStep(lines: seq<Line>, cache: map<int, Line>, k: int, fault: Option<nat>, n: nat)
    ensures var r := ReadOn(lines, cache, k, fault);
            if fault == Some(0) then r == Broken(cache)
            else if lines == [] then r == Ended(cache)
            else
              var line, later := lines[0], if fault.Some? then Some(fault.value - 1) else None;
              if !line.Record? || line.index.None? then Advanced(r, n) == Advanced(ReadOn(lines[1..], cache, k, later), n + 1)
              else if line.index.value.Unhashable? then r == Broken(cache)
              else
                var more := cache[line.index.value.value := line];
                if line.index.value.value == k then r == Found(line, more, 1)
                else Advanced(r, n) == Advanced(ReadOn(lines[1..], more, k, later), n + 1)
  {
  }
}
