/** The resume cache: memoized agent calls, and the append-only file that
    outlives the process. */
module Resume {
  import opened GluedLines
  import opened JsonText
  import opened JsonLines
  import opened Keys
  import opened Options
  import opened Seqs
  import opened Utf8

  datatype AgentResult = AgentResult(text: string, control: Option<string>, error: Option<string>)

  datatype Call = Call(id: string, controlKeys: seq<string>)

  datatype Row = Row(key: string, result: AgentResult)

  /** JavaScript truthiness of an optional string. */
  predicate Truthy(s: Option<string>) { s.Some? && s.value != "" }

  predicate Blank(s: string) { Trim(s) == "" }

  // ----- what is stored and what is served ------------------------------------

  /** A control riding an error is stripped from the stored copy. */
  function PersistRow(r: AgentResult): AgentResult {
    if r.error.Some? && r.control.Some? then r.(control := None) else r
  }

  /** A pure failure (error, no control, no text) is not stored. */
  predicate Persistable(row: AgentResult) {
    !(row.error.Some? && row.control.None? && Blank(row.text))
  }

  type Extract = (string, seq<string>) -> Option<string>

  /** What a cached row answers: itself, itself with its control recovered from
      the text, or nothing, so that the call is made again. */
  function Serve(extract: Extract, call: Call, hit: AgentResult): Option<AgentResult> {
    if Truthy(hit.error) then
      if hit.text == "" then None
      else match extract(hit.text, call.controlKeys)
        case None => None
        case Some(control) => Some(hit.(control := Some(control), error := None))
    else Some(hit)
  }

  /** Nothing served from the cache carries an error. */
  lemma ServedCarriesNoError(extract: Extract, call: Call, hit: AgentResult)
    ensures var r := Serve(extract, call, hit); r.Some? ==> !Truthy(r.value.error)
  {
  }

  /** A live result comes back unchanged from the cache exactly when it has no
      error, or an empty one beside a text and no control. */
  predicate Replayable(r: AgentResult) {
    r.error.None? || (r.error.value == "" && r.control.None? && !Blank(r.text))
  }

  lemma ReplayableExactly(extract: Extract, call: Call, r: AgentResult)
    ensures Replayable(r) <==> Persistable(PersistRow(r)) && Serve(extract, call, PersistRow(r)) == Some(r)
  {
  }

  /** It happens that it does not: a control beside an empty error text is stored
      without, and the result comes back changed. */
  lemma EmptyErrorLosesItsControl(extract: Extract, call: Call)
    ensures var r := AgentResult("done", Some("{}"), Some(""));
      Persistable(PersistRow(r)) && Serve(extract, call, PersistRow(r)) == Some(r.(control := None))
  {
    assert TrimEnd("done") == "done" && TrimStart("done") == "done";
  }

  // ----- the cache file -------------------------------------------------------

  /** Last wins, key by key. */
  function Fold(rows: seq<Row>): map<string, AgentResult>
    decreases |rows|
  {
    if rows == [] then map[]
    else
      var last, before := rows[|rows| - 1], Fold(rows[..|rows| - 1]);
      if last.key != "" then before[last.key := last.result] else before
  }

  lemma FoldSnoc(rows: seq<Row>, row: Row)
    ensures Fold(rows + [row]) == if row.key != "" then Fold(rows)[row.key := row.result] else Fold(rows)
  {
    assert (rows + [row])[..|rows|] == rows;
  }

  /** One round of the loader's loop. */
  lemma FoldNext(c: Codec<Row>, lines: seq<string>, i: nat)
    requires i < |lines|
    ensures var before, entry := Fold(ReadLines(c, lines[..i])), ParseLine(c, lines[i]);
      Fold(ReadLines(c, lines[..i + 1])) ==
      if entry.Some? && entry.value.key != "" then before[entry.value.key := entry.value.result] else before
  {
    ReadNext(c, lines, i);
    var rows, entry := ReadLines(c, lines[..i]), ParseLine(c, lines[i]);
    if entry.Some? {
      FoldSnoc(rows, entry.value);
    } else {
      assert rows + [] == rows;
    }
  }

  function Load(c: Codec<Row>, file: string): map<string, AgentResult> { Fold(Read(c, file)) }

  /** The file's text after a row was appended: the healing line break may be lost,
      and the row cut at any byte. */
  function AppendRow(c: Codec<Row>, file: string, row: Row, w: Write): string { AppendLine(file, c.stringify(row), w) }

  /** The row is readable: all its bytes were written, behind a clean end or the
      healing line break. */
  predicate Kept(c: Codec<Row>, file: string, row: Row, w: Write) { Lands(file, c.stringify(row), w) }

  /** The earlier rows that are there after an append: a row glued to the one in
      front takes it with it. */
  function Earlier(c: Codec<Row>, file: string, row: Row, w: Write): seq<Row> {
    if Glues(file, c.stringify(row), w) then WithoutLoose(JournalOf(c, file)) else Read(c, file)
  }

  lemma FoldOne(rows: seq<Row>, row: Row, kept: bool)
    requires row.key != ""
    ensures Fold(rows + (if kept then [row] else [])) == if kept then Fold(rows)[row.key := row.result] else Fold(rows)
  {
    FoldSnoc(rows, row);
    assert rows + [] == rows;
  }

  const TOMBSTONE_ROW := Row(TOMBSTONE, AgentResult("", None, None))

  function Entomb(c: Codec<Row>, file: string, w: Write): string {
    if file != "" then file else AppendRow(c, file, TOMBSTONE_ROW, w)
  }

  /** The file loads as the last-wins fold of its readable rows, wherever its writes
      were cut. */
  lemma AppendRowLoads(c: Codec<Row>, file: string, row: Row, w: Write)
    requires RecordLines(c) && EdgeOk(c, file) && row.key != ""
    ensures EdgeOk(c, AppendRow(c, file, row, w))
    ensures var before := Fold(Earlier(c, file, row, w));
      Load(c, AppendRow(c, file, row, w)) == if Kept(c, file, row, w) then before[row.key := row.result] else before
  {
    AppendReads(c, file, row, w);
    FoldOne(Earlier(c, file, row, w), row, Kept(c, file, row, w));
  }

  // ----- the memoizer -----------------------------------------------------------

  datatype Memo = Memo(cache: map<string, AgentResult>, occ: map<string, nat>, file: string)

  function Occ(occ: map<string, nat>, k: string): nat { if k in occ then occ[k] else 0 }

  /** A call arrives: its key is minted; the cache may answer at once. */
  function Mint(m: Memo, id: string, scope: string): (r: (Memo, string)) {
    var k := OccKey(id, scope);
    var n := Occ(m.occ, k) + 1;
    (m.(occ := m.occ[k := n]), Key(id, scope, n))
  }

  function Lookup(extract: Extract, m: Memo, call: Call, key: string): Option<AgentResult> {
    if key in m.cache then Serve(extract, call, m.cache[key]) else None
  }

  /** A live result arrives. */
  function Store(c: Codec<Row>, m: Memo, key: string, result: AgentResult, w: Write): Memo {
    var row := PersistRow(result);
    if Persistable(row) then m.(cache := m.cache[key := row], file := AppendRow(c, m.file, Row(key, row), w))
    else m.(file := Entomb(c, m.file, w))
  }

  /** Memory and disk agree, up to the inert tombstone on disk. */
  ghost predicate Agree(disk: map<string, AgentResult>, cache: map<string, AgentResult>) {
    disk == cache || disk == cache[TOMBSTONE := TOMBSTONE_ROW.result]
  }

  lemma AgreeAfterRow(disk: map<string, AgentResult>, cache: map<string, AgentResult>, key: string, row: AgentResult)
    requires Agree(disk, cache) && key != TOMBSTONE
    ensures Agree(disk[key := row], cache[key := row])
  {
    var t := TOMBSTONE_ROW.result;
    assert cache[TOMBSTONE := t][key := row] == cache[key := row][TOMBSTONE := t];
  }

  lemma AgreeAfterTombstone(disk: map<string, AgentResult>, cache: map<string, AgentResult>)
    requires Agree(disk, cache)
    ensures Agree(disk[TOMBSTONE := TOMBSTONE_ROW.result], cache)
  {
    var t := TOMBSTONE_ROW.result;
    assert cache[TOMBSTONE := t][TOMBSTONE := t] == cache[TOMBSTONE := t];
  }

  ghost predicate MemoAgrees(c: Codec<Row>, m: Memo) {
    EdgeOk(c, m.file) && Agree(Load(c, m.file), m.cache)
  }

  /** Both writes of an append go well. */
  const SAFE := Write(true, Written)

  /** Without torn writes a live call keeps memory and disk in agreement. */
  lemma StoreKeepsAgreement(c: Codec<Row>, m: Memo, id: string, scope: string, n: nat, result: AgentResult)
    requires RecordLines(c) && MemoAgrees(c, m)
    ensures MemoAgrees(c, Store(c, m, Key(id, scope, n), result, SAFE))
  {
    var key, row := Key(id, scope, n), PersistRow(result);
    TombstoneIsNoKey(id, scope, n);
    if Persistable(row) {
      AppendRowLoads(c, m.file, Row(key, row), SAFE);
      AgreeAfterRow(Load(c, m.file), m.cache, key, row);
    } else if m.file == "" {
      AppendRowLoads(c, m.file, TOMBSTONE_ROW, SAFE);
      AgreeAfterTombstone(Load(c, m.file), m.cache);
    }
  }

  /** After a pure failure the track stays discoverable: the file is not empty. */
  lemma FailedRunLeavesAFile(c: Codec<Row>, m: Memo, key: string, result: AgentResult)
    ensures Store(c, m, key, result, SAFE).file != ""
  {
  }

  /** Rows print as objects with plain names. */
  ghost predicate NamedRows(c: Codec<Row>) { forall row :: Named(c.stringify(row)) }

  /** The closure state of `createMemoizingAgent`, with the file it appends to. */
  class MemoizingAgent {
    const codec: Codec<Row>
    const extract: Extract
    var cache: map<string, AgentResult>
    var occ: map<string, nat>
    var bytes: seq<Byte>

    function State(): Memo
      reads this
    {
      Memo(cache, occ, Decode(bytes))
    }

    /** A fresh process: the cache is loaded from the file it finds. */
    constructor (codec: Codec<Row>, extract: Extract, bytes: seq<Byte>)
      ensures this.codec == codec && this.extract == extract
      ensures State() == Memo(Load(codec, Decode(bytes)), map[], Decode(bytes))
    {
      this.codec, this.extract, this.bytes, this.occ := codec, extract, bytes, map[];
      new;
      cache := LoadResumeCache();
    }

    method LoadResumeCache() returns (entries: map<string, AgentResult>)
      ensures entries == Load(codec, Decode(bytes))
    {
      entries := map[];
      var lines := Split(Decode(bytes));
      var i := 0;
      while i < |lines|
        invariant 0 <= i <= |lines|
        invariant entries == Fold(ReadLines(codec, lines[..i]))
      {
        FoldNext(codec, lines, i);
        var trimmed := Trim(lines[i]);
        i := i + 1;
        if trimmed == "" {
          continue;
        }
        var entry := codec.parse(trimmed);
        if entry.Some? && entry.value.key != "" {
          entries := entries[entry.value.key := entry.value.result];
        }
      }
      TakeAll(lines);
    }

    /** The synchronous half of a call. */
    method BeginCall(call: Call, markers: seq<string>) returns (key: string, served: Option<AgentResult>)
      modifies this`occ
      ensures (State(), key) == Mint(old(State()), call.id, ScopeText(markers))
      ensures served == Lookup(extract, State(), call, key)
    {
      var scope := ScopeText(markers);
      var occKey := OccKey(call.id, scope);
      var n := (if occKey in occ then occ[occKey] else 0) + 1;
      occ := occ[occKey := n];
      key := Key(call.id, scope, n);
      served := None;
      if key in cache {
        var hit := cache[key];
        if Truthy(hit.error) {
          if hit.text != "" {
            var recovered := extract(hit.text, call.controlKeys);
            if recovered.Some? {
              served := Some(hit.(control := recovered, error := None));
            }
          }
        } else {
          served := Some(hit);
        }
      }
    }

    /** The half after the live agent has answered. */
    method FinishCall(key: string, result: AgentResult, w: Write)
      requires NamedRows(codec)
      modifies this`cache, this`bytes
      ensures State() == Store(codec, old(State()), key, result, w)
    {
      var row := if result.error.Some? && result.control.Some? then result.(control := None) else result;
      if !(row.error.Some? && row.control.None? && Blank(row.text)) {
        cache := cache[key := row];
        AppendResumeResult(Row(key, row), w);
      } else {
        EnsureTombstone(w);
      }
    }

    method AppendResumeResult(row: Row, w: Write)
      requires NamedRows(codec)
      modifies this`bytes
      ensures Decode(bytes) == AppendRow(codec, old(Decode(bytes)), row, w)
    {
      if |bytes| > 0 {
        SameEnd(bytes);
      }
      HealEnd(w);
      AppendText(codec.stringify(row) + "\n", w.fate);
    }

    /** The first write, whose failure is swallowed. */
    method HealEnd(w: Write)
      modifies this`bytes
      ensures Decode(bytes) == Healed(old(Decode(bytes)), w)
    {
      if |bytes| > 0 {
        SameEnd(bytes);
        if bytes[|bytes| - 1] != 0x0A && w.heal {
          AppendText("\n", Written);
        }
      }
    }

    method AppendText(chunk: string, fate: Fate)
      requires chunk != "" && IsAscii(chunk[0])
      modifies this`bytes
      ensures Decode(bytes) == old(Decode(bytes)) + Landed(chunk, fate)
    {
      LandedIsRead(bytes, chunk, fate);
      bytes := bytes + Put(chunk, fate);
    }

    method EnsureTombstone(w: Write)
      requires NamedRows(codec)
      modifies this`bytes
      ensures Decode(bytes) == Entomb(codec, old(Decode(bytes)), w)
    {
      if |bytes| > 0 {
        SameEnd(bytes);
        return;
      }
      AppendResumeResult(TOMBSTONE_ROW, w);
    }
  }
}
