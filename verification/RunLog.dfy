/** The durable run-event ledger (`events.jsonl`): sequence numbers across torn
    writes, failed appends and process restarts. */
module RunLog {
  import opened JsonText
  import opened JsonLines
  import opened Options
  import opened Seqs
  import opened Utf8

  /** `MAX_RUN_EVENT_BYTES`. */
  const MAX_EVENT := 64 * 1024

  datatype Data = Payload(text: string) | Truncated(originalBytes: nat)

  datatype RunEvent = RunEvent(num: nat, time: string, runId: string, stage: Option<string>,
                               agent: Option<string>, kind: string, data: Data)

  /** What callers provide; `num` and `time` are filled in by the append. */
  datatype EventInput = EventInput(runId: string, stage: Option<string>, agent: Option<string>, kind: string, data: Data)

  function Full(evt: EventInput, num: nat, time: string): RunEvent {
    RunEvent(num, time, evt.runId, evt.stage, evt.agent, evt.kind, evt.data)
  }

  // ----- the line of an event ----------------------------------------------

  function Marked(c: Codec<RunEvent>, full: RunEvent): RunEvent {
    full.(data := Truncated(Length(c.stringify(full))))
  }

  /** The line written for an event: whole, with its data swapped for a marker,
      or, when even that is too long, sliced. */
  function Line(c: Codec<RunEvent>, full: RunEvent): string {
    var line := c.stringify(full);
    if Length(line) <= MAX_EVENT then line
    else
      var marked := c.stringify(Marked(c, full));
      if Length(marked) <= MAX_EVENT then marked else Slice(marked, MAX_EVENT)
  }

  /** The envelope without the data fits the bound. */
  predicate Fits(c: Codec<RunEvent>, full: RunEvent) {
    Length(c.stringify(full)) <= MAX_EVENT || Length(c.stringify(Marked(c, full))) <= MAX_EVENT
  }

  /** What a reader gets back for an event that fits. */
  function Stored(c: Codec<RunEvent>, full: RunEvent): RunEvent {
    if Length(c.stringify(full)) <= MAX_EVENT then full else Marked(c, full)
  }

  lemma LineReads(c: Codec<RunEvent>, full: RunEvent)
    requires Reliable(c)
    ensures LineShape(c, Line(c, full))
    ensures ParseLine(c, Line(c, full)) == if Fits(c, full) then Some(Stored(c, full)) else None
  {
    var e := Stored(c, full);
    var text := c.stringify(e);
    WholeLine(c, e);
    if !Fits(c, full) {
      var k := SliceIsPart(text, MAX_EVENT);
      assert IsPart(c, Line(c, full), e, k);
      ShorterReadsNothing(c, text, Line(c, full), k);
    }
  }

  // ----- the tail probe ----------------------------------------------------

  /** The last line that parses gives the number; 0 when none does. */
  function ProbeSeq(c: Codec<RunEvent>, lines: seq<string>): nat
    decreases |lines|
  {
    if lines == [] then 0
    else match c.parse(Tail(lines))
      case Some(e) => e.num
      case None => ProbeSeq(c, Init(lines))
  }

  function LastNum(events: seq<RunEvent>): nat {
    if events == [] then 0 else events[|events| - 1].num
  }

  lemma {:induction false} ProbeReadsLast(c: Codec<RunEvent>, lines: seq<string>)
    requires Reliable(c) && LogShape(c, lines)
    ensures ProbeSeq(c, lines) == LastNum(ReadLines(c, lines))
    decreases |lines|
  {
    if lines != [] {
      assert lines == Init(lines) + [Tail(lines)];
      ReadLinesConcat(c, Init(lines), [Tail(lines)]);
      ReadOne(c, Tail(lines));
      var e, k := LastShape(c, lines);
      ProbeReadsLast(c, Init(lines));
    }
  }

  lemma ProbeAfter(c: Codec<RunEvent>, init: seq<string>, tail: string)
    ensures ProbeSeq(c, init + [tail]) == match c.parse(tail) case Some(e) => e.num case None => ProbeSeq(c, init)
  {
    assert Init(init + [tail]) == init;
  }

  lemma LastShape(c: Codec<RunEvent>, lines: seq<string>) returns (e: RunEvent, k: nat)
    requires LogShape(c, lines) && lines != []
    ensures IsPart(c, Tail(lines), e, k)
  {
    assert LineShape(c, Tail(lines));
    e, k :| IsPart(c, Tail(lines), e, k);
  }

  /** A final newline ends the lines with an empty one. */
  lemma DropNewline(c: Codec<RunEvent>, f: string)
    requires Reliable(c) && LogShape(c, Split(f + "\n"))
    ensures LogShape(c, Split(f)) && ProbeSeq(c, Split(f + "\n")) == ProbeSeq(c, Split(f))
  {
    var lines := Split(f);
    GlueAtNewline(f, "");
    assert "\n" + "" == "\n" && Split("") == [""];
    forall i | 0 <= i < |lines| ensures LineShape(c, lines[i]) {
      assert LineShape(c, (lines + [""])[i]);
    }
    ProbeAfter(c, lines, "");
    EmptyLineShape(c, RunEvent(0, "", "", None, None, "", Truncated(0)));
  }

  /** A final space that is no newline was cut out of the middle of a line. */
  lemma DropBlank(c: Codec<RunEvent>, f: string, last: char)
    requires Reliable(c) && LogShape(c, Split(f + [last])) && IsSpace(last) && last != '\n'
    ensures LogShape(c, Split(f)) && ProbeSeq(c, Split(f + [last])) == ProbeSeq(c, Split(f))
  {
    SplitConcat(f, [last]);
    SplitOneLine([last]);
    var lines, t := Split(f), Tail(Split(f));
    assert lines == Init(lines) + [t];
    assert Split(f + [last]) == Init(lines) + [t + [last]];
    var e, k := LastShape(c, Split(f + [last]));
    CutBeforeSpace(c, t, last, e, k);
    forall i | 0 <= i < |lines| ensures LineShape(c, lines[i]) {
      if i < |lines| - 1 {
        assert LineShape(c, Split(f + [last])[i]);
      }
    }
    ProbeAfter(c, Init(lines), t);
    ProbeAfter(c, Init(lines), t + [last]);
  }

  lemma CutBeforeSpace(c: Codec<RunEvent>, t: string, last: char, e: RunEvent, k: nat)
    requires Reliable(c) && IsPart(c, t + [last], e, k) && IsSpace(last)
    ensures LineShape(c, t) && c.parse(t).None? && c.parse(t + [last]).None?
  {
    var full := c.stringify(e);
    assert Braced(full) && last != REPLACEMENT;
    assert (t + [last])[|t|] == last;
    assert t + [last] == full[..k] && full[k - 1] == last;
    assert t == full[..k - 1];
    assert IsPart(c, t, e, k - 1);
  }

  /** Trimming the end of the file hides no event from the probe. */
  lemma {:induction false} TrimKeepsProbe(c: Codec<RunEvent>, file: string)
    requires Reliable(c) && LogShape(c, Split(file))
    ensures ProbeSeq(c, Split(TrimEnd(file))) == ProbeSeq(c, Split(file))
    decreases |file|
  {
    if file != "" && IsSpace(file[|file| - 1]) {
      var f, last := file[..|file| - 1], file[|file| - 1];
      assert file == f + [last];
      if last == '\n' {
        DropNewline(c, f);
      } else {
        DropBlank(c, f, last);
      }
      TrimKeepsProbe(c, f);
    }
  }

  // ----- the log as a state machine ----------------------------------------

  /** The file, and the number this process remembers (`seqCache`). */
  datatype Log = Log(file: string, cached: Option<nat>)

  datatype Op =
    | Append(evt: EventInput, time: string, fate: Fate)
    | Restart

  function Probe(c: Codec<RunEvent>, file: string): nat {
    if TrimEnd(file) == "" then 0 else ProbeSeq(c, Split(TrimEnd(file)))
  }

  function ProbeClean(file: string): bool { TrimEnd(file) == "" || EndsClean(file) }

  function NextNum(c: Codec<RunEvent>, log: Log): nat {
    1 + if log.cached.Some? then log.cached.value else Probe(c, log.file)
  }

  function SeesClean(log: Log): bool {
    if log.cached.Some? then EndsClean(log.file) else ProbeClean(log.file)
  }

  function Chunk(clean: bool, line: string): string { (if clean then "" else "\n") + (line + "\n") }

  function StepAppend(c: Codec<RunEvent>, log: Log, evt: EventInput, time: string, fate: Fate): (r: (Log, Option<nat>)) {
    var num := NextNum(c, log);
    var chunk := Chunk(SeesClean(log), Line(c, Full(evt, num, time)));
    match fate
    case Written => (Log(log.file + chunk, Some(num)), Some(num))
    case Torn(_) => (Log(log.file + Landed(chunk, fate), None), None)
  }

  function StepLog(c: Codec<RunEvent>, log: Log, op: Op): Log {
    match op
    case Append(evt, time, fate) => StepAppend(c, log, evt, time, fate).0
    case Restart => log.(cached := None)
  }

  /** Numbered 1..n in order. */
  predicate Numbered(events: seq<RunEvent>) {
    forall i :: 0 <= i < |events| ==> events[i].num == i + 1
  }

  ghost predicate Inv(c: Codec<RunEvent>, log: Log) {
    && LogShape(c, Split(log.file))
    && Numbered(Read(c, log.file))
    && (log.cached.Some? ==> log.cached.value == |Read(c, log.file)|)
  }

  /** The next number is one past the events on disk, remembered or probed, and
      both cleanliness tests agree. */
  lemma NextIsPastTheEvents(c: Codec<RunEvent>, log: Log)
    requires Reliable(c) && Inv(c, log)
    ensures NextNum(c, log) == |Read(c, log.file)| + 1
    ensures SeesClean(log) == EndsClean(log.file)
  {
    ProbeIsLast(c, log);
  }

  /** The probe finds the last readable event, and both cleanliness tests agree. */
  lemma ProbeIsLast(c: Codec<RunEvent>, log: Log)
    requires Reliable(c) && LogShape(c, Split(log.file))
    ensures Probe(c, log.file) == LastNum(Read(c, log.file))
    ensures SeesClean(log) == EndsClean(log.file)
  {
    var some := RunEvent(0, "", "", None, None, "", Truncated(0));
    EmptyLineShape(c, some);
    TrimKeepsProbe(c, log.file);
    ProbeReadsLast(c, Split(log.file));
    if TrimEnd(log.file) == "" {
      ProbeEmpty(c);
      BlankIsClean(c, log.file);
    }
  }

  lemma ProbeEmpty(c: Codec<RunEvent>)
    requires c.parse("").None?
    ensures ProbeSeq(c, Split("")) == 0
  {
    assert Init([""]) == [];
  }

  lemma {:induction false} BlankHasBlankTail(file: string)
    requires TrimEnd(file) == ""
    ensures forall i :: 0 <= i < |Tail(Split(file))| ==> IsSpace(Tail(Split(file))[i])
    decreases |file|
  {
    if file != "" {
      var f, last := file[..|file| - 1], file[|file| - 1..];
      assert file == f + last;
      SplitConcat(f, last);
      BlankHasBlankTail(f);
      if last == "\n" {
        assert last[1..] == "" && Split(last) == ["", ""];
      } else {
        SplitOneLine(last);
      }
    }
  }

  lemma BlankIsClean(c: Codec<RunEvent>, file: string)
    requires Reliable(c) && LogShape(c, Split(file)) && TrimEnd(file) == ""
    ensures EndsClean(file)
  {
    BlankHasBlankTail(file);
    CleanMeansEmptyTail(file);
    var tail := Tail(Split(file));
    var e, k :| IsPart(c, tail, e, k);
    assert Braced(c.stringify(e));
  }

  /** Writing an event's chunk to a file. */
  lemma WriteReads(c: Codec<RunEvent>, file: string, full: RunEvent, fate: Fate)
    requires Reliable(c) && LogShape(c, Split(file))
    ensures var line := Line(c, full);
      var file' := file + Landed(JsonLines.Payload(file, line), fate);
      && LogShape(c, Split(file'))
      && Read(c, file') == Read(c, file) + (if Fits(c, full) && Complete(file, line, fate) then [Stored(c, full)] else [])
  {
    LineReads(c, full);
    AppendCut(c, file, Line(c, full), fate);
    assert Read(c, file) + [] == Read(c, file);
  }

  /** One append, cut at any byte: the events already there stay, and the new one
      is added exactly when it fits and its whole line was written. */
  lemma AppendReads(c: Codec<RunEvent>, log: Log, evt: EventInput, time: string, fate: Fate)
    requires Reliable(c) && Inv(c, log)
    ensures var full := Full(evt, |Read(c, log.file)| + 1, time);
      var line := Line(c, full);
      var log' := StepAppend(c, log, evt, time, fate).0;
      && LogShape(c, Split(log'.file))
      && Read(c, log'.file) == Read(c, log.file)
         + (if Fits(c, full) && Complete(log.file, line, fate) then [Stored(c, full)] else [])
  {
    NextIsPastTheEvents(c, log);
    var full := Full(evt, |Read(c, log.file)| + 1, time);
    assert JsonLines.Payload(log.file, Line(c, full)) == Chunk(EndsClean(log.file), Line(c, full));
    WriteReads(c, log.file, full, fate);
  }

  /** Every event appended on the way fits the bound. */
  predicate FitsNow(c: Codec<RunEvent>, log: Log, op: Op) {
    op.Append? ==> Fits(c, Full(op.evt, NextNum(c, log), op.time))
  }

  lemma StepKeepsInv(c: Codec<RunEvent>, log: Log, op: Op)
    requires Reliable(c) && Inv(c, log) && FitsNow(c, log, op)
    ensures Inv(c, StepLog(c, log, op))
    ensures Read(c, log.file) <= Read(c, StepLog(c, log, op).file)
  {
    NextIsPastTheEvents(c, log);
    if op.Append? {
      AppendReads(c, log, op.evt, op.time, op.fate);
    }
  }

  // ----- whole runs --------------------------------------------------------

  /** An append that returned a number: the number and the event as stored. */
  datatype Ack = Ack(num: nat, event: RunEvent)

  function Acks(c: Codec<RunEvent>, log: Log, ops: seq<Op>): seq<Ack>
    decreases |ops|
  {
    if ops == [] then []
    else
      (if ops[0].Append? && ops[0].fate == Written
       then [Ack(NextNum(c, log), Stored(c, Full(ops[0].evt, NextNum(c, log), ops[0].time)))] else [])
      + Acks(c, StepLog(c, log, ops[0]), ops[1..])
  }

  function RunAll(c: Codec<RunEvent>, log: Log, ops: seq<Op>): Log
    decreases |ops|
  {
    if ops == [] then log else RunAll(c, StepLog(c, log, ops[0]), ops[1..])
  }

  predicate AllFit(c: Codec<RunEvent>, log: Log, ops: seq<Op>)
    decreases |ops|
  {
    ops == [] || (FitsNow(c, log, ops[0]) && AllFit(c, StepLog(c, log, ops[0]), ops[1..]))
  }

  ghost predicate Acknowledged(events: seq<RunEvent>, a: Ack) {
    1 <= a.num <= |events| && events[a.num - 1] == a.event
  }

  lemma AckIsRead(c: Codec<RunEvent>, log: Log, op: Op)
    requires Reliable(c) && Inv(c, log) && FitsNow(c, log, op) && op.Append? && op.fate == Written
    ensures var num := NextNum(c, log);
      Acknowledged(Read(c, StepLog(c, log, op).file), Ack(num, Stored(c, Full(op.evt, num, op.time))))
  {
    NextIsPastTheEvents(c, log);
    AppendReads(c, log, op.evt, op.time, op.fate);
  }

  lemma {:induction false} RunKeepsNumbers(c: Codec<RunEvent>, log: Log, ops: seq<Op>)
    requires Reliable(c) && Inv(c, log) && AllFit(c, log, ops)
    ensures var events := Read(c, RunAll(c, log, ops).file);
      && Numbered(events)
      && Read(c, log.file) <= events
      && forall a :: a in Acks(c, log, ops) ==> Acknowledged(events, a)
    decreases |ops|
  {
    if ops != [] {
      var op, next := ops[0], StepLog(c, log, ops[0]);
      StepKeepsInv(c, log, op);
      RunKeepsNumbers(c, next, ops[1..]);
      var events := Read(c, RunAll(c, log, ops).file);
      PrefixTrans(Read(c, log.file), Read(c, next.file), events);
      forall a | a in Acks(c, log, ops) ensures Acknowledged(events, a) {
        if a !in Acks(c, next, ops[1..]) {
          AckIsRead(c, log, op);
        }
      }
    }
  }

  const EMPTY := Log("", None)

  lemma EmptyLogIsFine(c: Codec<RunEvent>)
    requires Reliable(c)
    ensures Inv(c, EMPTY) && Read(c, "") == []
  {
    EmptyLineShape(c, RunEvent(0, "", "", None, None, "", Truncated(0)));
    ReadOne(c, "");
  }

  /** Gap-free across crashes: after any appends, torn writes and restarts, the
      reader sees events numbered 1..n in order; what it saw at any earlier
      moment is still there; and every event whose append returned a number is
      at that number. */
  lemma LogSurvivesCrashes(c: Codec<RunEvent>, before: seq<Op>, after: seq<Op>)
    requires Sound(c) && AllFit(c, EMPTY, before + after)
    ensures var mid := RunAll(c, EMPTY, before);
      var events := Read(c, RunAll(c, mid, after).file);
      && RunAll(c, mid, after) == RunAll(c, EMPTY, before + after)
      && Numbered(events)
      && Read(c, mid.file) <= events
      && forall a :: a in Acks(c, EMPTY, before + after) ==> Acknowledged(events, a)
  {
    SoundIsReliable(c);
    EmptyLogIsFine(c);
    SplitRun(c, EMPTY, before, after);
    RunKeepsNumbers(c, EMPTY, before + after);
    RunKeepsNumbers(c, RunAll(c, EMPTY, before), after);
  }

  lemma {:induction false} SplitRun(c: Codec<RunEvent>, log: Log, a: seq<Op>, b: seq<Op>)
    requires Reliable(c) && Inv(c, log) && AllFit(c, log, a + b)
    ensures RunAll(c, log, a + b) == RunAll(c, RunAll(c, log, a), b)
    ensures AllFit(c, RunAll(c, log, a), b) && Inv(c, RunAll(c, log, a))
    decreases |a|
  {
    if a == [] {
      assert a + b == b;
    } else {
      assert (a + b)[1..] == a[1..] + b;
      StepKeepsInv(c, log, a[0]);
      SplitRun(c, StepLog(c, log, a[0]), a[1..], b);
    }
  }

  /** The bound is exact: an acknowledged event can be read back at its number
      if and only if its envelope fits. */
  lemma AckedIsReadExactlyWhenItFits(c: Codec<RunEvent>, log: Log, evt: EventInput, time: string)
    requires Reliable(c) && Inv(c, log)
    ensures var (log', num) := StepAppend(c, log, evt, time, Written);
      var events := Read(c, log'.file);
      num.Some? && ((num.value <= |events| && events[num.value - 1].num == num.value) <==> Fits(c, Full(evt, num.value, time)))
  {
    NextIsPastTheEvents(c, log);
    AppendReads(c, log, evt, time, Written);
  }

  // ----- when numbering stays dense -----------------------------------------

  function NextEvent(c: Codec<RunEvent>, log: Log, op: Op): RunEvent
    requires op.Append?
  {
    Full(op.evt, NextNum(c, log), op.time)
  }

  /** The append leaves a readable event. */
  predicate Readable(c: Codec<RunEvent>, log: Log, op: Op) {
    && op.Append?
    && Fits(c, NextEvent(c, log, op))
    && Complete(log.file, Line(c, NextEvent(c, log, op)), op.fate)
  }

  /** The process remembers more events than there are on disk. */
  predicate Ahead(c: Codec<RunEvent>, log: Log) { log.cached.Some? && log.cached.value > |Read(c, log.file)| }

  predicate Skips(c: Codec<RunEvent>, log: Log, op: Op) { Readable(c, log, op) && Ahead(c, log) }

  /** What holds without any bound on the events: a process never remembers fewer
      events than a dense file has. */
  ghost predicate Loose(c: Codec<RunEvent>, log: Log) {
    && LogShape(c, Split(log.file))
    && (Numbered(Read(c, log.file)) && log.cached.Some? ==> log.cached.value >= |Read(c, log.file)|)
  }

  lemma StepReads(c: Codec<RunEvent>, log: Log, op: Op)
    requires Reliable(c) && LogShape(c, Split(log.file))
    ensures var log' := StepLog(c, log, op);
      && LogShape(c, Split(log'.file))
      && Read(c, log'.file) == Read(c, log.file) + (if Readable(c, log, op) then [Stored(c, NextEvent(c, log, op))] else [])
  {
    assert Read(c, log.file) + [] == Read(c, log.file);
    if op.Append? {
      ProbeIsLast(c, log);
      var full := NextEvent(c, log, op);
      assert JsonLines.Payload(log.file, Line(c, full)) == Chunk(SeesClean(log), Line(c, full));
      WriteReads(c, log.file, full, op.fate);
    }
  }

  lemma NumberedSnoc(events: seq<RunEvent>, e: RunEvent)
    requires Numbered(events)
    ensures Numbered(events + [e]) <==> e.num == |events| + 1
  {
    assert (events + [e])[|events|] == e;
  }

  lemma NextInDense(c: Codec<RunEvent>, log: Log)
    requires Reliable(c) && Loose(c, log) && Numbered(Read(c, log.file))
    ensures var n := |Read(c, log.file)|;
      NextNum(c, log) > n && (NextNum(c, log) == n + 1 <==> !(log.cached.Some? && log.cached.value > n))
  {
    ProbeIsLast(c, log);
  }

  lemma StepStaysLoose(c: Codec<RunEvent>, log: Log, op: Op)
    requires Reliable(c) && Loose(c, log) && Numbered(Read(c, log.file))
    ensures Numbered(Read(c, StepLog(c, log, op).file)) <==> !Skips(c, log, op)
    ensures !Skips(c, log, op) ==> Loose(c, StepLog(c, log, op))
  {
    StepReads(c, log, op);
    NextInDense(c, log);
    if Readable(c, log, op) {
      NumberedSnoc(Read(c, log.file), Stored(c, NextEvent(c, log, op)));
    } else {
      assert Read(c, log.file) + [] == Read(c, log.file);
    }
  }

  lemma GapStays(c: Codec<RunEvent>, log: Log, op: Op)
    requires Reliable(c) && LogShape(c, Split(log.file)) && !Numbered(Read(c, log.file))
    ensures !Numbered(Read(c, StepLog(c, log, op).file))
  {
    StepReads(c, log, op);
    var i :| 0 <= i < |Read(c, log.file)| && Read(c, log.file)[i].num != i + 1;
    assert Read(c, StepLog(c, log, op).file)[i].num != i + 1;
  }

  // ----- the operations that leave a gap ------------------------------------------

  /** The log in front of the n-th operation. */
  function At(c: Codec<RunEvent>, ops: seq<Op>, n: nat): Log
    requires n <= |ops|
  {
    RunAll(c, EMPTY, ops[..n])
  }

  /** An event that does not fit is acknowledged. */
  predicate Oversized(c: Codec<RunEvent>, log: Log, op: Op) {
    IsAcked(op) && !Fits(c, NextEvent(c, log, op))
  }

  predicate IsAcked(op: Op) { op.Append? && op.fate == Written }

  predicate AllAcked(ops: seq<Op>, a: nat, b: nat) { forall k :: a <= k < b && k < |ops| ==> IsAcked(ops[k]) }

  /** An oversized event is acknowledged as the i-th operation, and neither a restart
      nor a torn write has come since. */
  predicate OwedSince(c: Codec<RunEvent>, ops: seq<Op>, i: nat, n: nat) {
    i < n <= |ops| && Oversized(c, At(c, ops, i), ops[i]) && AllAcked(ops, i + 1, n)
  }

  predicate Owes(c: Codec<RunEvent>, ops: seq<Op>, n: nat) { exists i :: 0 <= i < n && OwedSince(c, ops, i, n) }

  /** A readable event follows an oversized one without a restart or a torn write
      between. */
  predicate Overtakes(c: Codec<RunEvent>, ops: seq<Op>, i: nat, j: nat) {
    j < |ops| && OwedSince(c, ops, i, j) && Readable(c, At(c, ops, j), ops[j])
  }

  lemma {:induction false} RunSnoc(c: Codec<RunEvent>, log: Log, ops: seq<Op>, op: Op)
    ensures RunAll(c, log, ops + [op]) == StepLog(c, RunAll(c, log, ops), op)
    decreases |ops|
  {
    if ops == [] {
      assert [op][1..] == [];
      assert RunAll(c, StepLog(c, log, op), []) == StepLog(c, log, op);
      assert ops + [op] == [op];
    } else {
      assert (ops + [op])[1..] == ops[1..] + [op];
      RunSnoc(c, StepLog(c, log, ops[0]), ops[1..], op);
    }
  }

  lemma AtNext(c: Codec<RunEvent>, ops: seq<Op>, n: nat)
    requires n < |ops|
    ensures At(c, ops, n + 1) == StepLog(c, At(c, ops, n), ops[n])
  {
    TakeSnoc(ops, n);
    RunSnoc(c, EMPTY, ops[..n], ops[n]);
  }

  lemma OwesNext(c: Codec<RunEvent>, ops: seq<Op>, n: nat)
    requires n < |ops|
    ensures Owes(c, ops, n + 1) <==>
      IsAcked(ops[n]) && (Owes(c, ops, n) || Oversized(c, At(c, ops, n), ops[n]))
  {
    if Owes(c, ops, n) && IsAcked(ops[n]) {
      var i :| 0 <= i < n && OwedSince(c, ops, i, n);
      assert OwedSince(c, ops, i, n + 1);
    }
    if Oversized(c, At(c, ops, n), ops[n]) {
      assert OwedSince(c, ops, n, n + 1);
    }
    if Owes(c, ops, n + 1) {
      var i :| 0 <= i < n + 1 && OwedSince(c, ops, i, n + 1);
      assert i < n ==> OwedSince(c, ops, i, n);
    }
  }

  /** A process is ahead of its dense file exactly when it owes. */
  lemma StepOwes(c: Codec<RunEvent>, ops: seq<Op>, n: nat)
    requires Reliable(c) && n < |ops| && Loose(c, At(c, ops, n)) && Numbered(Read(c, At(c, ops, n).file))
    requires Ahead(c, At(c, ops, n)) <==> Owes(c, ops, n)
    requires !Skips(c, At(c, ops, n), ops[n])
    ensures Ahead(c, At(c, ops, n + 1)) <==> Owes(c, ops, n + 1)
  {
    var log, op := At(c, ops, n), ops[n];
    AtNext(c, ops, n);
    OwesNext(c, ops, n);
    StepReads(c, log, op);
    NextInDense(c, log);
  }

  ghost predicate NoneOvertakes(c: Codec<RunEvent>, ops: seq<Op>, n: nat)
    requires n <= |ops|
  {
    forall j :: 0 <= j < n ==> !(Owes(c, ops, j) && Readable(c, At(c, ops, j), ops[j]))
  }

  /** The events are dense exactly when no readable one has overtaken, and while they
      are the process is ahead exactly when it owes. */
  ghost predicate DenseAt(c: Codec<RunEvent>, ops: seq<Op>, n: nat)
    requires n <= |ops|
  {
    var log := At(c, ops, n);
    && LogShape(c, Split(log.file))
    && (Numbered(Read(c, log.file)) <==> NoneOvertakes(c, ops, n))
    && (Numbered(Read(c, log.file)) ==> Loose(c, log) && (Ahead(c, log) <==> Owes(c, ops, n)))
  }

  lemma NextStaysDense(c: Codec<RunEvent>, ops: seq<Op>, n: nat)
    requires Reliable(c) && n < |ops| && DenseAt(c, ops, n) && Numbered(Read(c, At(c, ops, n).file))
    ensures DenseAt(c, ops, n + 1)
  {
    AtNext(c, ops, n);
    StepReads(c, At(c, ops, n), ops[n]);
    StepStaysLoose(c, At(c, ops, n), ops[n]);
    if !Skips(c, At(c, ops, n), ops[n]) {
      StepOwes(c, ops, n);
    }
  }

  lemma NextStaysGapped(c: Codec<RunEvent>, ops: seq<Op>, n: nat)
    requires Reliable(c) && n < |ops| && DenseAt(c, ops, n) && !Numbered(Read(c, At(c, ops, n).file))
    ensures DenseAt(c, ops, n + 1)
  {
    AtNext(c, ops, n);
    StepReads(c, At(c, ops, n), ops[n]);
    GapStays(c, At(c, ops, n), ops[n]);
  }

  lemma {:induction false} DenseUpTo(c: Codec<RunEvent>, ops: seq<Op>, n: nat)
    requires Reliable(c) && n <= |ops|
    ensures DenseAt(c, ops, n)
  {
    if n == 0 {
      assert ops[..0] == [];
      EmptyLogIsFine(c);
    } else {
      DenseUpTo(c, ops, n - 1);
      if Numbered(Read(c, At(c, ops, n - 1).file)) {
        NextStaysDense(c, ops, n - 1);
      } else {
        NextStaysGapped(c, ops, n - 1);
      }
    }
  }

  /** Whatever is appended, torn and restarted, the events stay numbered 1..n if and
      only if no acknowledged oversized event is followed by a readable one without
      a restart or a torn write between. */
  lemma NumberedExactly(c: Codec<RunEvent>, ops: seq<Op>)
    requires Sound(c)
    ensures Numbered(Read(c, RunAll(c, EMPTY, ops).file)) <==> !(exists i: nat, j: nat :: Overtakes(c, ops, i, j))
  {
    SoundIsReliable(c);
    TakeAll(ops);
    DenseUpTo(c, ops, |ops|);
    if i: nat, j: nat :| Overtakes(c, ops, i, j) {
      assert Owes(c, ops, j);
    }
    if !NoneOvertakes(c, ops, |ops|) {
      var j: nat :| j < |ops| && Owes(c, ops, j) && Readable(c, At(c, ops, j), ops[j]);
      var i: nat :| i < j && OwedSince(c, ops, i, j);
      assert Overtakes(c, ops, i, j);
    }
  }

  /** It happens: one oversized envelope is acknowledged and lost, and the next
      event of the same process is written past the gap. */
  lemma OversizedLeavesAGap(c: Codec<RunEvent>, log: Log, big: EventInput, evt: EventInput, time: string)
    requires Reliable(c) && Inv(c, log)
    requires !Fits(c, Full(big, |Read(c, log.file)| + 1, time)) && Fits(c, Full(evt, |Read(c, log.file)| + 2, time))
    ensures !Numbered(Read(c, RunAll(c, log, [Append(big, time, Written), Append(evt, time, Written)]).file))
  {
    var ops := [Append(big, time, Written), Append(evt, time, Written)];
    NextIsPastTheEvents(c, log);
    StepReads(c, log, ops[0]);
    var next := StepLog(c, log, ops[0]);
    assert Read(c, next.file) == Read(c, log.file);
    StepStaysLoose(c, next, ops[1]);
    assert ops[1..] == [ops[1]] && ops[1..][1..] == [];
    assert RunAll(c, log, ops) == RunAll(c, StepLog(c, next, ops[1]), []);
  }

  /** Where the healing newline is left out, the file does not end inside a
      character. */
  lemma CleanEndsWhole(log: Log)
    requires SeesClean(log)
    ensures EndsWhole(log.file)
  {
    if TrimEnd(log.file) == "" && log.file != "" {
      assert !IsSpace(log.file[|log.file| - 1]) ==> TrimEnd(log.file) == log.file;
    }
  }

  // ----- the implementation ------------------------------------------------

  /** One spec directory's ledger: the bytes on disk and this process's cache. */
  class RunLogFile {
    const codec: Codec<RunEvent>
    var bytes: seq<Byte>
    var seqCache: Option<nat>

    constructor (codec: Codec<RunEvent>)
      ensures this.codec == codec && State() == EMPTY
    {
      this.codec := codec;
      bytes, seqCache := [], None;
    }

    function State(): Log
      reads this
    {
      Log(Decode(bytes), seqCache)
    }

    method TailProbe() returns (lastSeq: nat, endsClean: bool)
      ensures lastSeq == Probe(codec, Decode(bytes)) && endsClean == ProbeClean(Decode(bytes))
    {
      if |bytes| == 0 {
        return 0, true;
      }
      SameEnd(bytes);
      endsClean := bytes[|bytes| - 1] == 0x0A;
      var text := TrimEnd(Decode(bytes));
      if text == "" {
        return 0, true;
      }
      var lines := Split(text);
      var i := |lines|;
      TakeAll(lines);
      while i > 0
        invariant 0 <= i <= |lines|
        invariant ProbeSeq(codec, lines) == ProbeSeq(codec, lines[..i])
      {
        i := i - 1;
        TakeSnoc(lines, i);
        ProbeAfter(codec, lines[..i], lines[i]);
        var parsed := codec.parse(lines[i]);
        if parsed.Some? {
          return parsed.value.num, endsClean;
        }
      }
      lastSeq := 0;
    }

    method FileEndsClean() returns (clean: bool)
      ensures clean == EndsClean(Decode(bytes))
    {
      if |bytes| == 0 {
        return true;
      }
      SameEnd(bytes);
      clean := bytes[|bytes| - 1] == 0x0A;
    }

    /** The bytes are appended; `fate` is what the file system does to the write. */
    method AppendFile(chunk: string, fate: Fate)
      requires EndsWhole(Decode(bytes)) || (chunk != "" && chunk[0] == '\n')
      modifies this`bytes
      ensures Decode(bytes) == old(Decode(bytes)) + Landed(chunk, fate)
    {
      LandedIsRead(bytes, chunk, fate);
      bytes := bytes + Put(chunk, fate);
    }

    method BoundedLine(full: RunEvent) returns (line: string)
      ensures line == Line(codec, full)
    {
      line := codec.stringify(full);
      if Length(line) > MAX_EVENT {
        line := codec.stringify(full.(data := Truncated(Length(line))));
        if Length(line) > MAX_EVENT {
          line := Slice(line, MAX_EVENT);
        }
      }
    }

    method AppendRunEvent(evt: EventInput, time: string, fate: Fate) returns (num: Option<nat>)
      modifies this
      ensures (State(), num) == StepAppend(codec, old(State()), evt, time, fate)
    {
      var lastSeq: nat, endsClean;
      match seqCache {
        case Some(n) =>
          lastSeq := n;
          endsClean := FileEndsClean();
        case None =>
          lastSeq, endsClean := TailProbe();
      }
      assert lastSeq + 1 == NextNum(codec, State()) && endsClean == SeesClean(State());
      var full := Full(evt, lastSeq + 1, time);
      var line := BoundedLine(full);
      var chunk := (if endsClean then "" else "\n") + (line + "\n");
      if endsClean {
        CleanEndsWhole(State());
      }
      AppendFile(chunk, fate);
      if fate == Written {
        seqCache, num := Some(full.num), Some(full.num);
      } else {
        seqCache, num := None, None;
      }
    }

    /** A new process: the cache is gone, the file is not. */
    method RestartProcess()
      modifies this
      ensures State() == StepLog(codec, old(State()), Restart)
    {
      seqCache := None;
    }

    method ReadRunEvents() returns (out: seq<RunEvent>)
      ensures out == Read(codec, Decode(bytes))
    {
      out := [];
      var lines := Split(Decode(bytes));
      var i := 0;
      while i < |lines|
        invariant 0 <= i <= |lines|
        invariant out == ReadLines(codec, lines[..i])
      {
        ReadNext(codec, lines, i);
        var trimmed := Trim(lines[i]);
        i := i + 1;
        if trimmed == "" {
          continue;
        }
        var parsed := codec.parse(trimmed);
        if parsed.Some? {
          out := out + [parsed.value];
        }
      }
      TakeAll(lines);
    }
  }
}
