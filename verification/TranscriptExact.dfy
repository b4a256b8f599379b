/** When the incremental reader answers what a plain scan of the same log answers. */
module TranscriptExact {
  import opened Wrappers
  import opened Transcript

  // ----- scanning -----

  /** The lines before the first record whose index cannot be a key. */
  function Readable(log: seq<Line>): (r: seq<Line>)
    ensures r <= log && forall i | 0 <= i < |r| :: !Breaks(r[i])
    ensures |r| < |log| ==> Breaks(log[|r|])
  {
    if log == [] || Breaks(log[0]) then [] else [log[0]] + Readable(log[1..])
  }

  lemma {:induction false} ScanFinds(log: seq<Line>, k: int)
    ensures var s := Scan(log, k);
            && (s.Some? ==> s.value in log && HasKey(s.value, k))
            && (s.None? ==> forall i | 0 <= i < |log| :: !HasKey(log[i], k))
  {
    if log != [] && !HasKey(log[0], k) {
      ScanFinds(log[1..], k);
      forall i | 0 <= i < |log| && Scan(log, k).None?
        ensures !HasKey(log[i], k)
      {
        if i > 0 {
          assert log[i] == log[1..][i - 1];
        }
      }
      if Scan(log, k).Some? {
        var i :| 0 <= i < |log[1..]| && log[1..][i] == Scan(log, k).value;
        assert log[i + 1] == Scan(log, k).value;
      }
    }
  }

  lemma {:induction false} ScanOfPrefix(a: seq<Line>, b: seq<Line>, k: int)
    requires a <= b && Scan(a, k).Some?
    ensures Scan(b, k) == Scan(a, k)
    decreases |a|
  {
    if a != [] && !HasKey(a[0], k) {
      assert a[1..] <= b[1..] by {
        assert a == b[..|a|];
        assert a[1..] == b[1..][..|a| - 1];
      }
      ScanOfPrefix(a[1..], b[1..], k);
    }
  }

  lemma ScanSome(log: seq<Line>, k: int, i: nat)
    requires i < |log| && HasKey(log[i], k)
    ensures Scan(log, k).Some?
  {
    ScanFinds(log, k);
  }

  /** Every indexed record is the first of its index among the readable ones, or a repeat of it. */
  ghost predicate Consistent(log: seq<Line>) {
    forall i: nat, k | i < |log| && HasKey(log[i], k) ::
      Scan(Readable(log), k).Some? && (i < |Readable(log)| ==> log[i] == Scan(Readable(log), k).value)
  }

  lemma {:induction false} ReadableGrows(a: seq<Line>, b: seq<Line>)
    ensures Readable(a) <= Readable(a + b) && (|Readable(a)| < |a| ==> Readable(a + b) == Readable(a))
  {
    hide Breaks;
    if a == [] {
    } else if !Breaks(a[0]) {
      assert (a + b)[1..] == a[1..] + b;
      ReadableGrows(a[1..], b);
    }
  }

  lemma ConsistentPrefix(a: seq<Line>, b: seq<Line>)
    requires Consistent(a + b)
    ensures Consistent(a)
  {
    hide Readable, Scan, HasKey;
    ReadableGrows(a, b);
    var ra, rb := Readable(a), Readable(a + b);
    forall i: nat, k | i < |a| && HasKey(a[i], k)
      ensures Scan(ra, k).Some? && (i < |ra| ==> a[i] == Scan(ra, k).value)
    {
      assert (a + b)[i] == a[i];
      if |ra| == |a| {
        assert ra == a;
        ScanSome(a, k, i);
        ScanOfPrefix(ra, rb, k);
        assert i < |rb|;
      }
    }
  }

  // ----- what the tracker holds -----

  ghost predicate Faithful(cache: map<int, Line>, log: seq<Line>, upTo: nat) {
    && upTo <= |Readable(log)|
    && (forall k | k in cache :: Scan(Readable(log), k) == Some(cache[k]))
    && (forall i: nat, k | i < upTo && HasKey(log[i], k) :: k in cache)
  }

  /** The map holds the records before the stored offset, and nothing a scan would not give. */
  ghost predicate Valid(r: Reader, logs: Logs) {
    if r.cid.None? then r == FRESH
    else r.cid.value in logs && Faithful(r.cache, logs[r.cid.value], r.offset)
  }

  lemma FaithfulMore(cache: map<int, Line>, log: seq<Line>, n: nat)
    requires Consistent(log) && Faithful(cache, log, n) && n < |Readable(log)|
    ensures (forall k :: !HasKey(log[n], k)) ==> Faithful(cache, log, n + 1)
    ensures forall k | HasKey(log[n], k) :: Faithful(cache[k := log[n]], log, n + 1)
    ensures !Breaks(log[n])
  {
    hide Scan, Readable, Consistent, Faithful;
    ReadableAt(log, n);
    forall k | HasKey(log[n], k)
      ensures Faithful(cache[k := log[n]], log, n + 1)
    {
      KeyIsConsistent(log, n, k);
      FaithfulKeyed(cache, log, n, k);
    }
    if forall k :: !HasKey(log[n], k) {
      FaithfulUnkeyed(cache, log, n);
    }
  }

  lemma ReadableAt(log: seq<Line>, n: nat)
    requires n < |Readable(log)|
    ensures n < |log| && log[n] == Readable(log)[n] && !Breaks(log[n])
  {
  }

  lemma KeyIsConsistent(log: seq<Line>, n: nat, k: int)
    requires Consistent(log) && n < |Readable(log)| && HasKey(log[n], k)
    ensures Scan(Readable(log), k) == Some(log[n])
  {
    hide Scan, HasKey, Readable;
  }

  lemma FaithfulKeyed(cache: map<int, Line>, log: seq<Line>, n: nat, k: int)
    requires Faithful(cache, log, n) && n < |Readable(log)| && HasKey(log[n], k) && Scan(Readable(log), k) == Some(log[n])
    ensures Faithful(cache[k := log[n]], log, n + 1)
  {
    hide Scan, Readable;
  }

  lemma FaithfulUnkeyed(cache: map<int, Line>, log: seq<Line>, n: nat)
    requires Faithful(cache, log, n) && n < |Readable(log)| && forall k :: !HasKey(log[n], k)
    ensures Faithful(cache, log, n + 1)
  {
    hide Scan, Readable, HasKey;
  }

  /** Reading on keeps the cache faithful and finds what a scan finds. */
  lemma {:induction false} ReadsRight(log: seq<Line>, n: nat, cache: map<int, Line>, k: int, fault: Option<nat>)
    requires Consistent(log) && Faithful(cache, log, n) && k !in cache
    ensures match ReadOn(log[n..], cache, k, fault)
            case Found(line, more, used) => Faithful(more, log, n + used) && Scan(Readable(log), k) == Some(line)
            case Ended(more) => Faithful(more, log, |log|) && k !in more
            case Broken(more) => Faithful(more, log, n) && (fault.None? ==> Scan(Readable(log), k).None?)
    decreases |log| - n
  {
    hide Consistent, Faithful, Scan, Readable;
    FaithfulBound(cache, log, n);
    ReadStep(log[n..], cache, k, fault, 0);
    AdvancedNone();
    if fault != Some(0) {
      if n == |log| {
      } else if n == |Readable(log)| {
        BreakHere(log, n);
        assert log[n..][0] == log[n];
        NothingLeft(cache, log, n, k);
      } else {
        FaithfulMore(cache, log, n);
        assert log[n..][0] == log[n] && log[n..][1..] == log[n + 1..];
        var line, later := log[n], if fault.Some? then Some(fault.value - 1) else None;
        if !line.Record? || line.index.None? {
          ReadsRight(log, n + 1, cache, k, later);
          BackOne(cache, log, n);
          MoreBackOne(ReadOn(log[n + 1..], cache, k, later), log, n);
        } else {
          var j := line.index.value.value;
          assert HasKey(line, j);
          if j == k {
            FoundHere(cache, log, n, k);
          } else {
            var more := cache[j := line];
            ReadsRight(log, n + 1, more, k, later);
            MoreBackOne(ReadOn(log[n + 1..], more, k, later), log, n);
          }
        }
      }
    }
  }

  lemma AdvancedNone()
    ensures forall r: Read :: Advanced(r, 0) == r
  {
  }

  lemma FaithfulBound(cache: map<int, Line>, log: seq<Line>, n: nat)
    requires Faithful(cache, log, n)
    ensures n <= |Readable(log)| <= |log|
  {
    hide Scan;
  }

  lemma BreakHere(log: seq<Line>, n: nat)
    requires n == |Readable(log)| && n < |log|
    ensures Breaks(log[n])
  {
  }

  lemma BackOne(cache: map<int, Line>, log: seq<Line>, n: nat)
    requires Faithful(cache, log, n + 1)
    ensures Faithful(cache, log, n)
  {
    hide Scan, Readable;
  }

  lemma MoreBackOne(r: Read, log: seq<Line>, n: nat)
    ensures r.Broken? && Faithful(r.cache, log, n + 1) ==> Faithful(r.cache, log, n)
  {
    if r.Broken? && Faithful(r.cache, log, n + 1) {
      BackOne(r.cache, log, n);
    }
  }

  /** Everything readable was read, and the index was not there. */
  lemma NothingLeft(cache: map<int, Line>, log: seq<Line>, n: nat, k: int)
    requires Faithful(cache, log, n) && n == |Readable(log)| && k !in cache
    ensures Scan(Readable(log), k).None?
  {
    hide Scan;
    var r := Readable(log);
    forall i | 0 <= i < |r|
      ensures !HasKey(r[i], k)
    {
      assert log[i] == r[i];
    }
    ScanFinds(r, k);
  }

  lemma FoundHere(cache: map<int, Line>, log: seq<Line>, n: nat, k: int)
    requires Consistent(log) && n < |Readable(log)| && HasKey(log[n], k)
    ensures Scan(Readable(log), k) == Some(log[n])
  {
    hide Scan, Readable;
  }

  // ----- one lookup -----

  function Answer(logs: Logs, conversation: string, step: Option<int>): Option<Line> {
    if conversation == "" || step.None? || conversation !in logs then None else Scan(logs[conversation], step.value)
  }

  /** On consistent logs a lookup keeps the tracker valid, and answers as a scan does unless reading failed. */
  lemma LookupIsRight(r: Reader, logs: Logs, conversation: string, step: Option<int>, fault: Option<nat>)
    requires Valid(r, logs) && (conversation in logs ==> Consistent(logs[conversation]))
    ensures var l := Look(r, logs, conversation, step, fault);
            && Valid(l.reader, logs)
            && (l.answer == Answer(logs, conversation, step) || (fault.Some? && l.answer.None?))
  {
    hide Faithful, Consistent, Scan, Readable, ReadOn;
    if conversation != "" && step.Some? {
      var k := step.value;
      if r.cid == Some(conversation) && k in r.cache {
        CachedIsScan(r.cache, logs[conversation], r.offset, k);
      } else if conversation in logs {
        var open, log := Opened(r, conversation), logs[conversation];
        if r.cid != Some(conversation) {
          EmptyIsFaithful(log);
        }
        FaithfulBound(open.cache, log, open.offset);
        ReadsRight(log, open.offset, open.cache, k, fault);
        ScanOfReadable(log, k);
        match ReadOn(log[open.offset..], open.cache, k, fault) {
          case Found(_, _, _) =>
          case Broken(_) =>
          case Ended(more) => EndedIsScan(more, log, k);
        }
      }
    }
  }

  lemma EmptyIsFaithful(log: seq<Line>)
    ensures Faithful(map[], log, 0)
  {
    hide Scan;
  }

  lemma CachedIsScan(cache: map<int, Line>, log: seq<Line>, n: nat, k: int)
    requires Faithful(cache, log, n) && k in cache
    ensures Scan(log, k) == Some(cache[k])
  {
    hide Scan;
    ScanOfPrefix(Readable(log), log, k);
  }

  lemma ScanOfReadable(log: seq<Line>, k: int)
    requires Consistent(log)
    ensures Scan(log, k) == Scan(Readable(log), k)
  {
    hide Scan;
    ScanFinds(log, k);
    if Scan(log, k).Some? {
      var i :| 0 <= i < |log| && log[i] == Scan(log, k).value;
      ScanOfPrefix(Readable(log), log, k);
    } else if Scan(Readable(log), k).Some? {
      ScanOfPrefix(Readable(log), log, k);
    }
  }

  lemma EndedIsScan(cache: map<int, Line>, log: seq<Line>, k: int)
    requires Faithful(cache, log, |log|)
    ensures k !in cache ==> Scan(Readable(log), k).None?
  {
    if k !in cache {
      NothingLeft(cache, log, |log|, k);
    }
  }

  // ----- whole sessions -----

  datatype Op = Append(conversation: string, lines: seq<Line>) | Lookup(conversation: string, step: Option<int>, fault: Option<nat>)

  function Appended(logs: Logs, conversation: string, lines: seq<Line>): Logs {
    logs[conversation := (if conversation in logs then logs[conversation] else []) + lines]
  }

  function LogsAfter(logs: Logs, ops: seq<Op>): Logs
    decreases |ops|
  {
    if ops == [] then logs
    else if ops[0].Append? then LogsAfter(Appended(logs, ops[0].conversation, ops[0].lines), ops[1..])
    else LogsAfter(logs, ops[1..])
  }

  /** Every lookup of the session answers what a scan of the log as it then is answers, unless reading failed. */
  predicate Right(r: Reader, logs: Logs, ops: seq<Op>)
    decreases |ops|
  {
    ops == [] ||
    match ops[0]
    case Append(conversation, lines) => Right(r, Appended(logs, conversation, lines), ops[1..])
    case Lookup(conversation, step, fault) =>
      var l := Look(r, logs, conversation, step, fault);
      (l.answer == Answer(logs, conversation, step) || (fault.Some? && l.answer.None?)) && Right(l.reader, logs, ops[1..])
  }

  ghost predicate AllConsistent(logs: Logs) {
    forall c | c in logs :: Consistent(logs[c])
  }

  lemma AppendedConsistent(logs: Logs, conversation: string, lines: seq<Line>)
    requires AllConsistent(Appended(logs, conversation, lines))
    ensures AllConsistent(logs)
  {
    hide Consistent;
    forall c | c in logs
      ensures Consistent(logs[c])
    {
      if c == conversation {
        assert Appended(logs, conversation, lines)[c] == logs[c] + lines;
        ConsistentPrefix(logs[c], lines);
      } else {
        assert Appended(logs, conversation, lines)[c] == logs[c];
      }
    }
  }

  lemma {:induction false} LogsAfterConsistent(logs: Logs, ops: seq<Op>)
    requires AllConsistent(LogsAfter(logs, ops))
    ensures AllConsistent(logs)
    decreases |ops|
  {
    hide AllConsistent;
    if ops != [] {
      if ops[0].Append? {
        LogsAfterConsistent(Appended(logs, ops[0].conversation, ops[0].lines), ops[1..]);
        AppendedConsistent(logs, ops[0].conversation, ops[0].lines);
      } else {
        LogsAfterConsistent(logs, ops[1..]);
      }
    }
  }

  lemma FaithfulGrows(cache: map<int, Line>, log: seq<Line>, lines: seq<Line>, n: nat)
    requires Faithful(cache, log, n)
    ensures Faithful(cache, log + lines, n)
  {
    hide Scan, HasKey;
    ReadableGrows(log, lines);
    forall k | k in cache
      ensures Scan(Readable(log + lines), k) == Some(cache[k])
    {
      ScanOfPrefix(Readable(log), Readable(log + lines), k);
    }
    assert forall i: nat | i < n :: (log + lines)[i] == log[i];
  }

  lemma AppendKeepsValid(r: Reader, logs: Logs, conversation: string, lines: seq<Line>)
    requires Valid(r, logs)
    ensures Valid(r, Appended(logs, conversation, lines))
  {
    hide Faithful;
    if r.cid == Some(conversation) {
      FaithfulGrows(r.cache, logs[conversation], lines, r.offset);
    }
  }

  /** Over any interleaving of whole-line appends, lookups and switches of conversation, on logs that end up
      consistent, every answer is the scan's. */
  lemma {:induction false} SessionIsRight(r: Reader, logs: Logs, ops: seq<Op>)
    requires Valid(r, logs) && AllConsistent(LogsAfter(logs, ops))
    ensures Right(r, logs, ops)
    decreases |ops|
  {
    hide Valid, AllConsistent, Look, Answer;
    if ops != [] {
      match ops[0] {
        case Append(conversation, lines) =>
          AppendKeepsValid(r, logs, conversation, lines);
          SessionIsRight(r, Appended(logs, conversation, lines), ops[1..]);
        case Lookup(conversation, step, fault) =>
          LogsAfterConsistent(logs, ops);
          assert conversation in logs ==> Consistent(logs[conversation]) by {
            ConsistentAt(logs);
          }
          LookupIsRight(r, logs, conversation, step, fault);
          SessionIsRight(Look(r, logs, conversation, step, fault).reader, logs, ops[1..]);
      }
    }
  }

  lemma ConsistentAt(logs: Logs)
    requires AllConsistent(logs)
    ensures forall c | c in logs :: Consistent(logs[c])
  {
    hide Consistent;
  }

  // ----- the condition is exact -----

  predicate NoFaults(ops: seq<Op>) {
    forall op | op in ops && op.Lookup? :: op.fault.None?
  }

  /** An index no record has. */
  lemma {:induction false} UnusedKey(log: seq<Line>) returns (z: int)
    ensures forall i, k | 0 <= i < |log| && HasKey(log[i], k) :: k < z
  {
    if log == [] {
      z := 0;
    } else {
      z := UnusedKey(log[1..]);
      if log[0].Record? && log[0].index.Some? && log[0].index.value.Key? && log[0].index.value.value >= z {
        z := log[0].index.value.value + 1;
      }
      forall i, k | 0 <= i < |log| && HasKey(log[i], k)
        ensures k < z
      {
        if i > 0 {
          assert log[1..][i - 1] == log[i];
        }
      }
    }
  }

  /** Reading for an unused index leaves the last record of every index in the cache. */
  lemma {:induction false} ReadsAll(lines: seq<Line>, cache: map<int, Line>, z: int, k: int)
    requires forall i | 0 <= i < |lines| :: !HasKey(lines[i], z) && !Breaks(lines[i])
    ensures var r := ReadOn(lines, cache, z, None);
            && r.Ended?
            && (lines != [] && HasKey(lines[|lines| - 1], k) ==> k in r.cache && r.cache[k] == lines[|lines| - 1])
            && (forall j | j in r.cache :: j in cache || exists i | 0 <= i < |lines| :: HasKey(lines[i], j))
  {
    if lines != [] {
      var line, rest := lines[0], lines[1..];
      assert forall i | 0 <= i < |rest| :: rest[i] == lines[i + 1];
      ReadStep(lines, cache, z, None, 0);
      AdvancedNone();
      var more := if line.Record? && line.index.Some? then cache[line.index.value.value := line] else cache;
      ReadsAll(rest, more, z, k);
      if rest != [] {
        assert rest[|rest| - 1] == lines[|lines| - 1];
      } else {
        assert ReadOn(rest, more, z, None) == Ended(more);
      }
      forall j | j in ReadOn(rest, more, z, None).cache && j !in cache
        ensures exists i | 0 <= i < |lines| :: HasKey(lines[i], j)
      {
        if j in more {
          assert HasKey(lines[0], j);
        } else {
          var i :| 0 <= i < |rest| && HasKey(rest[i], j);
          assert HasKey(lines[i + 1], j);
        }
      }
    }
  }

  /** Reading up to a record that cannot be cached without meeting the index fails. */
  lemma {:induction false} ReadsIntoBreak(lines: seq<Line>, cache: map<int, Line>, k: int)
    requires |Readable(lines)| < |lines| && Scan(Readable(lines), k).None?
    ensures ReadOn(lines, cache, k, None).Broken?
  {
    hide Scan, Readable, ReadOn;
    if Breaks(lines[0]) {
      StopsAtBreak(lines, cache, k);
    } else {
      var line, rest := lines[0], lines[1..];
      ReadableTail(lines);
      ScanCons(line, Readable(rest), k);
      var more := if line.Record? && line.index.Some? then cache[line.index.value.value := line] else cache;
      ReadsIntoBreak(rest, more, k);
      ReadsPast(lines, cache, more, k);
    }
  }

  lemma ScanCons(line: Line, rest: seq<Line>, k: int)
    requires Scan([line] + rest, k).None?
    ensures Scan(rest, k).None? && !HasKey(line, k)
  {
    assert ([line] + rest)[1..] == rest;
  }

  lemma StopsAtBreak(lines: seq<Line>, cache: map<int, Line>, k: int)
    requires lines != [] && Breaks(lines[0])
    ensures ReadOn(lines, cache, k, None).Broken?
  {
  }

  lemma ReadsPast(lines: seq<Line>, cache: map<int, Line>, more: map<int, Line>, k: int)
    requires lines != [] && !Breaks(lines[0]) && !HasKey(lines[0], k) && ReadOn(lines[1..], more, k, None).Broken?
    requires more == if lines[0].Record? && lines[0].index.Some? then cache[lines[0].index.value.value := lines[0]] else cache
    ensures ReadOn(lines, cache, k, None).Broken?
  {
  }

  lemma ReadableTail(lines: seq<Line>)
    requires lines != [] && !Breaks(lines[0])
    ensures Readable(lines) == [lines[0]] + Readable(lines[1..])
  {
  }

  /** On an inconsistent log some session goes wrong. */
  lemma InconsistentGoesWrong(c: string, log: seq<Line>) returns (ops: seq<Op>)
    requires c != "" && !Consistent(log)
    ensures NoFaults(ops) && LogsAfter(map[], ops) == map[c := log] && !Right(FRESH, map[], ops)
  {
    var r := Readable(log);
    var i: nat, k :| i < |log| && HasKey(log[i], k) && (Scan(r, k).None? || (i < |r| && log[i] != Scan(r, k).value));
    ScanSome(log, k, i);
    if Scan(r, k).None? {
      ops := MissedSession(c, log, k);
    } else {
      ops := RepeatSession(c, log, i, k);
    }
  }

  lemma MissedSession(c: string, log: seq<Line>, k: int) returns (ops: seq<Op>)
    requires c != "" && Scan(Readable(log), k).None? && Scan(log, k).Some?
    ensures NoFaults(ops) && LogsAfter(map[], ops) == map[c := log] && !Right(FRESH, map[], ops)
  {
    hide Scan, Readable, Right, LogsAfter, NoFaults;
    var look := [Lookup(c, Some(k), None)];
    ops := [Append(c, log)] + look;
    AppendFirst(c, log, look);
    TwoWithoutFault(ops);
    LookMisses(c, log, k);
  }

  lemma TwoWithoutFault(ops: seq<Op>)
    requires |ops| == 2 && forall i | 0 <= i < 2 :: ops[i].Lookup? ==> ops[i].fault.None?
    ensures NoFaults(ops)
  {
  }

  lemma LookMisses(c: string, log: seq<Line>, k: int)
    requires c != "" && Scan(Readable(log), k).None? && Scan(log, k).Some?
    ensures LogsAfter(map[c := log], [Lookup(c, Some(k), None)]) == map[c := log]
    ensures !Right(FRESH, map[c := log], [Lookup(c, Some(k), None)])
  {
    hide Scan, ReadOn, Readable;
    var look := [Lookup(c, Some(k), None)];
    assert look[1..] == [] && log[0..] == log;
    assert Readable(log) <= log && Readable(log) != log;
    ReadsIntoBreak(log, map[], k);
  }

  lemma AppendFirst(c: string, log: seq<Line>, rest: seq<Op>)
    ensures var ops := [Append(c, log)] + rest;
            && LogsAfter(map[], ops) == LogsAfter(map[c := log], rest)
            && Right(FRESH, map[], ops) == Right(FRESH, map[c := log], rest)
  {
    var ops := [Append(c, log)] + rest;
    assert ops[0] == Append(c, log) && ops[1..] == rest;
    assert [] + log == log;
    assert Appended(map[], c, log) == map[c := log];
  }

  lemma FourWithoutFault(ops: seq<Op>)
    requires |ops| == 4 && forall i | 0 <= i < 4 :: ops[i].Lookup? ==> ops[i].fault.None?
    ensures NoFaults(ops)
  {
  }

  lemma RepeatSession(c: string, log: seq<Line>, i: nat, k: int) returns (ops: seq<Op>)
    requires c != "" && i < |Readable(log)| && HasKey(log[i], k)
    requires Scan(Readable(log), k).Some? && log[i] != Scan(Readable(log), k).value
    ensures NoFaults(ops) && LogsAfter(map[], ops) == map[c := log] && !Right(FRESH, map[], ops)
  {
    hide Readable, HasKey, Scan, Look, Right, LogsAfter, NoFaults;
    var head, tail := log[..i + 1], log[i + 1..];
    var z := UnusedKey(head);
    var end := [Append(c, tail)];
    var again := [Lookup(c, Some(k), None)] + end;
    var looks := [Lookup(c, Some(z), None)] + again;
    ops := [Append(c, head)] + looks;
    AppendFirst(c, head, looks);
    assert ops == [Append(c, head), Lookup(c, Some(z), None), Lookup(c, Some(k), None), Append(c, tail)];
    FourWithoutFault(ops);
    assert looks[1..] == again && again[1..] == end && head + tail == log;
    assert forall j | 0 <= j < i + 1 :: head[j] == log[j];
    RepeatLogs(c, head, tail, looks, again, end);
    RepeatRead(c, log, i, k, z);
    RepeatWrong(c, log, i, k, z, looks, again);
  }

  lemma RepeatLogs(c: string, head: seq<Line>, tail: seq<Line>, looks: seq<Op>, again: seq<Op>, end: seq<Op>)
    requires looks != [] && looks[0].Lookup? && looks[1..] == again && again != [] && again[0].Lookup? && again[1..] == end
    requires end == [Append(c, tail)]
    ensures LogsAfter(map[c := head], looks) == map[c := head + tail]
  {
    assert end[1..] == [];
    assert Appended(map[c := head], c, tail) == map[c := head + tail];
    assert LogsAfter(map[c := head], end) == map[c := head + tail];
    assert LogsAfter(map[c := head], again) == map[c := head + tail];
  }

  /** After the lookup of the unused index the cache holds the repeat. */
  lemma RepeatRead(c: string, log: seq<Line>, i: nat, k: int, z: int)
    requires c != "" && i < |Readable(log)| && HasKey(log[i], k)
    requires forall j, q | 0 <= j < i + 1 && HasKey(log[j], q) :: q < z
    ensures var l := Look(FRESH, map[c := log[..i + 1]], c, Some(z), None);
            l.reader.cid == Some(c) && k in l.reader.cache && l.reader.cache[k] == log[i]
  {
    hide Readable, HasKey, ReadOn;
    var head := log[..i + 1];
    assert head[0..] == head;
    forall j | 0 <= j < |head|
      ensures !HasKey(head[j], z) && !Breaks(head[j])
    {
      assert head[j] == log[j] && log[j] == Readable(log)[j];
    }
    ReadsAll(head, map[], z, k);
    assert head[|head| - 1] == log[i];
  }

  lemma RepeatWrong(c: string, log: seq<Line>, i: nat, k: int, z: int, looks: seq<Op>, again: seq<Op>)
    requires c != "" && i < |Readable(log)| && HasKey(log[i], k)
    requires Scan(Readable(log), k).Some? && log[i] != Scan(Readable(log), k).value
    requires var l := Look(FRESH, map[c := log[..i + 1]], c, Some(z), None);
             l.reader.cid == Some(c) && k in l.reader.cache && l.reader.cache[k] == log[i]
    requires looks != [] && looks[0] == Lookup(c, Some(z), None) && looks[1..] == again && again != [] && again[0] == Lookup(c, Some(k), None)
    ensures !Right(FRESH, map[c := log[..i + 1]], looks)
  {
    hide Readable, HasKey, ReadOn, Scan;
    var head := log[..i + 1];
    var logs: Logs := map[c := head];
    var l := Look(FRESH, logs, c, Some(z), None);
    assert head[i] == log[i];
    ScanSome(head, k, i);
    assert Scan(head, k) == Scan(Readable(log), k) by {
      ScanOfPrefix(head, log, k);
      ScanOfPrefix(Readable(log), log, k);
    }
    assert Look(l.reader, logs, c, Some(k), None).answer == Some(log[i]);
    assert !Right(l.reader, logs, again);
  }

  /** The reader is exact on a log, however it grew and was read, if and only if the log is consistent. */
  lemma ReaderIsExactExactly(c: string, log: seq<Line>)
    requires c != ""
    ensures Consistent(log) <==>
            forall ops | NoFaults(ops) && LogsAfter(map[], ops) == map[c := log] :: Right(FRESH, map[], ops)
  {
    hide Consistent, Right, LogsAfter, NoFaults;
    if Consistent(log) {
      forall ops | NoFaults(ops) && LogsAfter(map[], ops) == map[c := log]
        ensures Right(FRESH, map[], ops)
      {
        SessionIsRight(FRESH, map[], ops);
      }
    } else {
      var ops := InconsistentGoesWrong(c, log);
    }
  }

  /** Distinct indexes, all of them usable as keys, are more than enough. */
  lemma DistinctIsConsistent(log: seq<Line>)
    requires forall i | 0 <= i < |log| :: !Breaks(log[i])
    requires forall i, j, k | 0 <= i < j < |log| && HasKey(log[i], k) :: !HasKey(log[j], k)
    ensures Consistent(log)
  {
    hide Scan;
    var r := Readable(log);
    assert r == log[..|r|] == log;
    forall i: nat, k | i < |log| && HasKey(log[i], k)
      ensures Scan(r, k) == Some(log[i])
    {
      ScanSome(log, k, i);
      ScanFinds(log, k);
      var j :| 0 <= j < |log| && log[j] == Scan(log, k).value;
    }
  }
}
