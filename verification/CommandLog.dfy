/** The durable project command log: retention on append, and the cursor query over it. */
module CommandLog {
  import opened Core
  import opened Text
  import opened Settings
  import opened Replay
  import opened Permissions
  import opened ProjectCommands
  import opened StreamModel

  const MAX_LOG_RECORDS: nat := 4096
  const MAX_LOG_BYTES: nat := 64 * 1024 * 1024
  const MAX_RETAINED_COMMAND_BYTES: nat := 1024 * 1024
  const MAX_LABEL_BYTES: nat := 256
  const RECORD_OVERHEAD_BYTES: nat := 512
  const MAX_QUERY_RECORDS: u32 := 256

  datatype CommandKind = ApplyKind | UndoKind | RedoKind | InspectKind

  /** Serialized request bytes: their length, their digest, and the command they decode to, if any. */
  datatype Request = Request(length: u64, digest: string, decoded: Option<ProjectCommand>)

  /** What a record always keeps about its request, retained or not. */
  datatype Evidence = Evidence(
    transactionId: string, methodName: string, schemaVersion: SemanticVersion, kind: CommandKind,
    expectedRevision: u64, requestLength: u64, requestDigest: string)

  /** Request evidence prepared before the engine runs the command. */
  datatype Draft = Draft(evidence: Evidence, replayRequest: Option<Request>)

  /** What the engine reports about one successful execution. */
  datatype Execution = Execution(
    commandSequence: u64, beforeRevision: u64, afterRevision: u64, beforeHash: string, afterHash: string, changed: bool)

  datatype LogRecord = LogRecord(sequence: u64, evidence: Evidence, replayRequest: Option<Request>, execution: Execution)

  function SequenceOf(record: LogRecord): u64 {
    record.sequence
  }

  function Prepare(
    transactionId: string, methodName: string, schemaVersion: SemanticVersion, kind: CommandKind,
    expectedRevision: u64, request: Request): Result<Draft>
  {
    if !ShortText(transactionId, MAX_LABEL_BYTES) || !ShortText(methodName, MAX_LABEL_BYTES) then Err(CorruptData)
    else
      Ok(Draft(
        Evidence(transactionId, methodName, schemaVersion, kind, expectedRevision, request.length, request.digest),
        if request.length <= MAX_RETAINED_COMMAND_BYTES then Some(request) else None))
  }

  /** The execution fits the caller's revision fence, and its evidence of change is consistent. */
  predicate ConsistentExecution(expectedRevision: u64, e: Execution) {
    && e.commandSequence != 0
    && expectedRevision == e.beforeRevision
    && (!e.changed ==> e.beforeRevision == e.afterRevision && e.beforeHash == e.afterHash)
    && (e.changed ==> e.beforeRevision < e.afterRevision)
  }

  /** Retained bytes match their evidence, and only oversized requests are kept as evidence alone. */
  predicate ConsistentRequest(evidence: Evidence, replayRequest: Option<Request>) {
    match replayRequest
    case Some(request) =>
      && request.length <= MAX_RETAINED_COMMAND_BYTES
      && request.length == evidence.requestLength && request.digest == evidence.requestDigest
    case None => evidence.requestLength > MAX_RETAINED_COMMAND_BYTES
  }

  predicate ValidRecord(record: LogRecord) {
    && record.sequence != 0
    && ShortText(record.evidence.transactionId, MAX_LABEL_BYTES) && ShortText(record.evidence.methodName, MAX_LABEL_BYTES)
    && ConsistentExecution(record.evidence.expectedRevision, record.execution)
    && ConsistentRequest(record.evidence, record.replayRequest)
  }

  /** A prepared draft can only be rejected for what the execution reports. */
  lemma PreparedDraftsAreRecordable(
    transactionId: string, methodName: string, schemaVersion: SemanticVersion, kind: CommandKind,
    expectedRevision: u64, request: Request, sequence: u64, e: Execution)
    requires Prepare(transactionId, methodName, schemaVersion, kind, expectedRevision, request).Ok? && sequence != 0
    ensures var draft := Prepare(transactionId, methodName, schemaVersion, kind, expectedRevision, request).value;
            ValidRecord(RecordFor(sequence, draft, e)) <==>
            ConsistentExecution(expectedRevision, e)
  {
  }

  function AccountedBytes(record: LogRecord): nat {
    RECORD_OVERHEAD_BYTES + Utf8Length(record.evidence.transactionId) + Utf8Length(record.evidence.methodName)
    + (if record.replayRequest.None? then 0 else record.replayRequest.value.length)
  }

  function RecordFor(sequence: u64, draft: Draft, execution: Execution): LogRecord {
    LogRecord(sequence, draft.evidence, draft.replayRequest, execution)
  }

  function TotalBytes(records: seq<LogRecord>): nat {
    if records == [] then 0 else AccountedBytes(records[0]) + TotalBytes(records[1..])
  }

  lemma {:induction false} TotalBytesSnoc(records: seq<LogRecord>, record: LogRecord)
    ensures TotalBytes(records + [record]) == TotalBytes(records) + AccountedBytes(record)
  {
    if records == [] {
      assert records + [record] == [record];
    } else {
      assert (records + [record])[1..] == records[1..] + [record];
      TotalBytesSnoc(records[1..], record);
    }
  }

  /** Retained records are numbered consecutively up to the latest sequence. */
  predicate WellFormedLog(nextSequence: u64, records: seq<LogRecord>) {
    && 1 <= nextSequence
    && |records| <= MAX_LOG_RECORDS && |records| < nextSequence
    && (records == [] ==> nextSequence == 1)
    && Numbered(nextSequence, records)
  }

  predicate Numbered(nextSequence: u64, records: seq<LogRecord>) {
    forall i :: 0 <= i < |records| ==> records[i].sequence == nextSequence - |records| + i
  }

  predicate AllRecordsValid(records: seq<LogRecord>) {
    forall i :: 0 <= i < |records| ==> ValidRecord(records[i])
  }

  predicate WithinBounds(records: seq<LogRecord>) {
    |records| <= MAX_LOG_RECORDS && TotalBytes(records) <= MAX_LOG_BYTES
  }

  /** One valid record always fits the bounds, so eviction stops before the newest. */
  lemma OverBoundHasMore(records: seq<LogRecord>)
    requires records != [] && ValidRecord(records[|records| - 1]) && !WithinBounds(records)
    ensures |records| > 1
    ensures AccountedBytes(records[0]) <= TotalBytes(records)
    ensures TotalBytes(records[1..]) == TotalBytes(records) - AccountedBytes(records[0])
  {
    assert |records| == 1 ==> TotalBytes(records[1..]) == 0;
  }

  /** `kept` is the longest suffix within bounds, and it is not empty. */
  ghost predicate MinimalSuffix(all: seq<LogRecord>, dropped: nat, kept: seq<LogRecord>) {
    && dropped < |all| && kept == all[dropped..] && WithinBounds(kept)
    && forall k :: 0 <= k < dropped ==> !WithinBounds(all[k..])
  }

  lemma AppendedIsNumbered(nextSequence: u64, records: seq<LogRecord>, record: LogRecord)
    requires nextSequence < U64_MAX && Numbered(nextSequence, records) && AllRecordsValid(records)
    requires record.sequence == nextSequence && ValidRecord(record)
    ensures Numbered(nextSequence + 1, records + [record]) && AllRecordsValid(records + [record])
    ensures TotalBytes(records + [record]) == TotalBytes(records) + AccountedBytes(record)
  {
    TotalBytesSnoc(records, record);
  }

  lemma SuffixIsNumbered(nextSequence: u64, records: seq<LogRecord>, k: nat)
    requires Numbered(nextSequence, records) && AllRecordsValid(records) && k <= |records|
    ensures Numbered(nextSequence, records[k..]) && AllRecordsValid(records[k..])
  {
  }

  /** A validated record is small, so byte accounting cannot overflow. */
  lemma RecordIsSmall(record: LogRecord)
    requires ValidRecord(record)
    ensures AccountedBytes(record) <= RECORD_OVERHEAD_BYTES + 2 * MAX_LABEL_BYTES + MAX_RETAINED_COMMAND_BYTES
  {
  }

  class ProjectCommandLog {
    var nextSequence: u64
    var retainedBytes: u64
    var records: seq<LogRecord>

    predicate Valid()
      reads this
    {
      && WellFormedLog(nextSequence, records) && AllRecordsValid(records)
      && retainedBytes == TotalBytes(records) <= MAX_LOG_BYTES
    }

    constructor ()
      ensures Valid() && records == [] && nextSequence == 1
    {
      nextSequence := 1;
      retainedBytes := 0;
      records := [];
    }

    /** Drops oldest records while a bound is exceeded: just enough of them, and never the newest. */
    method EvictOldest() returns (ghost dropped: nat)
      requires records != [] && ValidRecord(records[|records| - 1])
      requires retainedBytes == TotalBytes(records)
      modifies `records, `retainedBytes
      ensures MinimalSuffix(old(records), dropped, records)
      ensures retainedBytes == TotalBytes(records)
    {
      dropped := 0;
      ghost var all := records;
      while |records| > MAX_LOG_RECORDS || retainedBytes > MAX_LOG_BYTES
        invariant dropped < |all| && records == all[dropped..]
        invariant retainedBytes == TotalBytes(records)
        invariant forall k :: 0 <= k < dropped ==> !WithinBounds(all[k..])
        decreases |records|
      {
        assert records[|records| - 1] == all[|all| - 1];
        OverBoundHasMore(records);
        var removed := records[0];
        records := records[1..];
        retainedBytes := SaturatingSub(retainedBytes, AccountedBytes(removed));
        dropped := dropped + 1;
      }
    }

    /** Appends one record under the next sequence, then applies retention. */
    method Append(draft: Draft, execution: Execution)
      returns (r: Result<LogRecord>, ghost dropped: nat)
      requires Valid()
      modifies this
      ensures Valid()
      ensures r.Err? ==> unchanged(this)
      ensures r.Err? <==>
                old(nextSequence) == U64_MAX
                || !ValidRecord(LogRecord(old(nextSequence), draft.evidence, draft.replayRequest, execution))
      ensures r.Err? ==> r.error == if old(nextSequence) == U64_MAX then ResourceExhausted else CorruptData
      ensures r.Ok? ==>
                && r.value == LogRecord(old(nextSequence), draft.evidence, draft.replayRequest, execution)
                && nextSequence == old(nextSequence) + 1
                && MinimalSuffix(old(records) + [r.value], dropped, records)
    {
      var next := CheckedAdd(nextSequence, 1);
      if next.None? {
        return Err(ResourceExhausted), 0;
      }
      var record := RecordFor(nextSequence, draft, execution);
      if !ValidRecord(record) {
        return Err(CorruptData), 0;
      }
      AppendedIsNumbered(nextSequence, records, record);
      RecordIsSmall(record);
      nextSequence := next.value;
      retainedBytes := retainedBytes + AccountedBytes(record);
      records := records + [record];
      ghost var all := records;
      dropped := EvictOldest();
      SuffixIsNumbered(nextSequence, all, dropped);
      return Ok(records[|records| - 1]), dropped;
    }
  }

  // ----- The cursor query -----

  datatype Detail = Metadata | Replayable

  datatype LogQuery = LogQuery(afterSequence: u64, requestedLimit: u32, detail: Detail)

  datatype PublicLogRecord = PublicLogRecord(
    sequence: u64, evidence: Evidence, retained: bool, execution: Execution, replayRequest: Option<ProjectCommand>)

  function Public(record: LogRecord, replayRequest: Option<ProjectCommand>): PublicLogRecord {
    PublicLogRecord(record.sequence, record.evidence, record.replayRequest.Some?, record.execution, replayRequest)
  }

  datatype LogQueryResult =
    | Records(afterSequence: u64, throughSequence: u64, oldest: Option<u64>, latest: u64, page: seq<PublicLogRecord>)
    | LogResyncRequired(requestedAfterSequence: u64, oldestAvailable: u64, latest: u64)

  function Latest(nextSequence: u64): u64
    requires nextSequence >= 1
  {
    nextSequence - 1
  }

  function Oldest(records: seq<LogRecord>): Option<u64> {
    if records == [] then None else Some(records[0].sequence)
  }

  predicate IsGap(nextSequence: u64, records: seq<LogRecord>, cursor: u64)
    requires nextSequence >= 1
  {
    records != [] && cursor < Latest(nextSequence) && SaturatingAdd(cursor, 1) < records[0].sequence
  }

  /** What one record may show: its replay request only when decodable and authorized for this caller. */
  ghost function Shown(context: PermissionContext, detail: Detail, record: LogRecord): Result<PublicLogRecord> {
    if detail == Metadata || record.replayRequest.None? then
      Ok(Public(record, None))
    else if record.replayRequest.value.decoded.None? then Err(CorruptData)
    else
      var command := record.replayRequest.value.decoded.value;
      var granted :- CommandDecision(context, command);
      Ok(Public(record, Some(command)))
  }

  /** How this caller sees records at this level of detail. */
  ghost function View(context: PermissionContext, detail: Detail): LogRecord -> Result<PublicLogRecord> {
    (record: LogRecord) => Shown(context, detail, record)
  }

  /** Shows at most `limit` records from position k on, or fails with the first that may not be shown. */
  function ShowFrom(view: LogRecord -> Result<PublicLogRecord>, records: seq<LogRecord>, k: nat, limit: nat)
    : Result<seq<PublicLogRecord>>
    decreases limit
  {
    if limit == 0 || k >= |records| then Ok([])
    else
      var first :- view(records[k]);
      var rest :- ShowFrom(view, records, k + 1, limit - 1);
      Ok([first] + rest)
  }

  /** Where the records after a served cursor begin. */
  function Start(nextSequence: u64, records: seq<LogRecord>, cursor: u64): nat
    requires WellFormedLog(nextSequence, records) && cursor <= Latest(nextSequence)
    requires !IsGap(nextSequence, records, cursor)
  {
    cursor + 1 - (nextSequence - |records|)
  }

  function Answer(
    view: LogRecord -> Result<PublicLogRecord>, nextSequence: u64, records: seq<LogRecord>, cursor: u64, limit: u32)
    : Result<LogQueryResult>
    requires WellFormedLog(nextSequence, records)
  {
    if limit == 0 || limit > MAX_QUERY_RECORDS then Err(InvalidInput)
    else if cursor > Latest(nextSequence) then Err(InvalidInput)
    else if IsGap(nextSequence, records, cursor) then
      Ok(LogResyncRequired(cursor, records[0].sequence, Latest(nextSequence)))
    else
      var start := Start(nextSequence, records, cursor);
      var page :- ShowFrom(view, records, start, limit);
      Ok(Records(cursor, cursor + Min(limit, |records| - start), Oldest(records), Latest(nextSequence), page))
  }

  /** The query as a loop that stops at the first request it may not show. */
  method GetProjectCommandLog(
    context: PermissionContext, nextSequence: u64, records: seq<LogRecord>, q: LogQuery)
    returns (r: Result<LogQueryResult>)
    requires ValidContext(context) && WellFormedLog(nextSequence, records)
    ensures r == Answer(View(context, q.detail), nextSequence, records, q.afterSequence, q.requestedLimit)
  {
    if q.requestedLimit == 0 || q.requestedLimit > MAX_QUERY_RECORDS {
      return Err(InvalidInput);
    }
    if q.afterSequence > Latest(nextSequence) {
      return Err(InvalidInput);
    }
    if IsGap(nextSequence, records, q.afterSequence) {
      return Ok(LogResyncRequired(q.afterSequence, records[0].sequence, Latest(nextSequence)));
    }
    var selected := Take(After(SequenceOf, records, q.afterSequence), q.requestedLimit);
    SelectedPage(context, q, nextSequence, records);
    var shown := ShowRecords(context, q.detail, selected);
    if shown.Err? {
      return Err(shown.error);
    }
    var page := shown.value;
    return Ok(Records(q.afterSequence, Through(q.afterSequence, page), Oldest(records), Latest(nextSequence), page));
  }

  function Through(cursor: u64, page: seq<PublicLogRecord>): u64 {
    if page == [] then cursor else page[|page| - 1].sequence
  }

  lemma SelectedPage(context: PermissionContext, q: LogQuery, nextSequence: u64, records: seq<LogRecord>)
    requires WellFormedLog(nextSequence, records) && q.afterSequence <= Latest(nextSequence)
    requires !IsGap(nextSequence, records, q.afterSequence) && q.requestedLimit > 0
    ensures var selected := Take(After(SequenceOf, records, q.afterSequence), q.requestedLimit);
            var start, view := Start(nextSequence, records, q.afterSequence), View(context, q.detail);
            var page := ShowFrom(view, selected, 0, |selected|);
            && page == ShowFrom(view, records, start, q.requestedLimit)
            && (page.Ok? ==>
                  Through(q.afterSequence, page.value) == q.afterSequence + Min(q.requestedLimit, |records| - start))
  {
    var start := Start(nextSequence, records, q.afterSequence);
    SelectionIsWindow(nextSequence, records, q.afterSequence, q.requestedLimit);
    var selected := Take(After(SequenceOf, records, q.afterSequence), q.requestedLimit);
    ShowFromSlice(View(context, q.detail), records, start, selected, 0, q.requestedLimit);
    ShownPageIsAuthorized(context, q.detail, records, start, q.requestedLimit);
  }

  lemma SelectionIsWindow(nextSequence: u64, records: seq<LogRecord>, cursor: u64, limit: nat)
    requires WellFormedLog(nextSequence, records) && cursor <= Latest(nextSequence)
    requires !IsGap(nextSequence, records, cursor) && limit > 0
    ensures var selected, start := Take(After(SequenceOf, records, cursor), limit), Start(nextSequence, records, cursor);
            && start <= |records| && |selected| == Min(limit, |records| - start)
            && (forall i :: 0 <= i < |selected| ==> selected[i] == records[start + i])
            && (selected != [] ==> records[start + |selected| - 1].sequence == cursor + |selected|)
  {
    AfterDropsPrefix(SequenceOf, records, cursor, Start(nextSequence, records, cursor));
  }

  /** Showing a copied window is showing those records where they stand. */
  lemma {:induction false} ShowFromSlice(
    view: LogRecord -> Result<PublicLogRecord>, records: seq<LogRecord>, start: nat, slice: seq<LogRecord>, k: nat, limit: nat)
    requires start + |slice| <= |records| && k <= |slice|
    requires forall i :: 0 <= i < |slice| ==> slice[i] == records[start + i]
    requires |slice| - k == Min(limit, |records| - start - k)
    ensures ShowFrom(view, records, start + k, limit) == ShowFrom(view, slice, k, |slice| - k)
    decreases |slice| - k
  {
    if k < |slice| {
      ShowFromSlice(view, records, start, slice, k + 1, limit - 1);
    }
  }

  /** The loop over the selected records, stopping at the first one that may not be shown. */
  method ShowRecords(context: PermissionContext, detail: Detail, selected: seq<LogRecord>)
    returns (r: Result<seq<PublicLogRecord>>)
    requires ValidContext(context)
    ensures r == ShowFrom(View(context, detail), selected, 0, |selected|)
  {
    var page: seq<PublicLogRecord> := [];
    ghost var view := View(context, detail);
    EmptyPrefix(ShowFrom(view, selected, 0, |selected|));
    for i := 0 to |selected|
      invariant ShowFrom(view, selected, 0, |selected|) == Prepend(page, ShowFrom(view, selected, i, |selected| - i))
    {
      var shown := ShowRecord(context, detail, selected[i]);
      ShowNext(view, selected, i, page);
      assert view(selected[i]) == shown;
      if shown.Err? {
        return Err(shown.error);
      }
      page := page + [shown.value];
    }
    assert page + [] == page;
    return Ok(page);
  }

  lemma ShowNext(view: LogRecord -> Result<PublicLogRecord>, selected: seq<LogRecord>, i: nat, page: seq<PublicLogRecord>)
    requires i < |selected|
    ensures var rest := ShowFrom(view, selected, i, |selected| - i);
            var later := ShowFrom(view, selected, i + 1, |selected| - (i + 1));
            && (view(selected[i]).Err? ==> Prepend(page, rest) == Err(view(selected[i]).error))
            && (view(selected[i]).Ok? ==> Prepend(page, rest) == Prepend(page + [view(selected[i]).value], later))
  {
    var later := ShowFrom(view, selected, i + 1, |selected| - (i + 1));
    if view(selected[i]).Ok? && later.Ok? {
      var shown := [view(selected[i]).value];
      assert page + (shown + later.value) == page + shown + later.value;
    }
  }

  function Prepend<T>(front: seq<T>, rest: Result<seq<T>>): Result<seq<T>> {
    var suffix :- rest;
    Ok(front + suffix)
  }

  /** One record, with its retained request decoded and reauthorized when replay detail is asked for. */
  method ShowRecord(context: PermissionContext, detail: Detail, record: LogRecord) returns (r: Result<PublicLogRecord>)
    requires ValidContext(context)
    ensures r == Shown(context, detail, record)
    ensures r.Ok? ==> r.value.sequence == record.sequence
  {
    var request: Option<ProjectCommand> := None;
    if detail == Replayable && record.replayRequest.Some? {
      if record.replayRequest.value.decoded.None? {
        return Err(CorruptData);
      }
      var allowed := AuthorizeCommand(context, record.replayRequest.value.decoded.value);
      if allowed.Err? {
        return Err(allowed.error);
      }
      request := record.replayRequest.value.decoded;
    }
    return Ok(Public(record, request));
  }

  // ----- Gaps and paging -----

  /** A resync is reported exactly when the next needed record is no longer retained. */
  lemma GapIffNeededRecordEvicted(nextSequence: u64, records: seq<LogRecord>, cursor: u64)
    requires WellFormedLog(nextSequence, records) && cursor <= Latest(nextSequence)
    ensures IsGap(nextSequence, records, cursor) <==>
            cursor < Latest(nextSequence) && forall i :: 0 <= i < |records| ==> records[i].sequence != cursor + 1
  {
    var start := cursor + 1 - (nextSequence - |records|);
    if cursor < Latest(nextSequence) && !IsGap(nextSequence, records, cursor) {
      assert records[start].sequence == cursor + 1;
    }
  }

  /** The log and the event stream report gaps by the same rule. */
  lemma GapAgreesWithStream(nextSequence: u64, records: seq<LogRecord>, s: StreamState, q: PollEvents)
    requires WellFormedLog(nextSequence, records) && WellFormed(s)
    requires q.streamId == s.streamId && q.subscriptionId in s.subscriptions
    requires q.afterSequence <= Latest(nextSequence) == |s.history| && Oldest(records) == StreamModel.Oldest(s)
    ensures IsGap(nextSequence, records, q.afterSequence) <==> Polled(s, q).value.ResyncRequired?
  {
  }

  predicate AcceptedLimits(limits: seq<u32>) {
    limits == [] || (0 < limits[0] <= MAX_QUERY_RECORDS && AcceptedLimits(limits[1..]))
  }

  function Sum(limits: seq<u32>): nat {
    if limits == [] then 0 else limits[0] + Sum(limits[1..])
  }

  /** Concatenated pages, feeding each page's through sequence back as the next cursor. */
  function Pages(
    view: LogRecord -> Result<PublicLogRecord>, nextSequence: u64, records: seq<LogRecord>, cursor: u64, limits: seq<u32>)
    : Result<seq<PublicLogRecord>>
    requires WellFormedLog(nextSequence, records)
    decreases |limits|
  {
    if limits == [] then Ok([])
    else
      var answer :- Answer(view, nextSequence, records, cursor, limits[0]);
      if answer.LogResyncRequired? then Err(Conflict)
      else
        var rest :- Pages(view, nextSequence, records, answer.throughSequence, limits[1..]);
        Ok(answer.page + rest)
  }

  lemma EmptyPrefix<T>(rest: Result<seq<T>>)
    ensures Prepend([], rest) == rest
  {
    assert rest.Ok? ==> [] + rest.value == rest.value;
  }

  lemma {:induction false} ShowFromSplits(
    view: LogRecord -> Result<PublicLogRecord>, records: seq<LogRecord>, k: nat, a: nat, b: nat)
    requires k <= |records|
    ensures var first, rest := ShowFrom(view, records, k, a), ShowFrom(view, records, k + Min(a, |records| - k), b);
            ShowFrom(view, records, k, a + b) ==
              if first.Err? then first else Prepend(first.value, rest)
    decreases a
  {
    if a == 0 || k == |records| {
      EmptyPrefix(ShowFrom(view, records, k, if a == 0 then b else 0));
    } else if view(records[k]).Ok? {
      ShowFromSplits(view, records, k + 1, a - 1, b);
      var tail := ShowFrom(view, records, k + 1, a - 1);
      var rest := ShowFrom(view, records, k + Min(a, |records| - k), b);
      if tail.Ok? && rest.Ok? {
        var head := [view(records[k]).value];
        assert head + (tail.value + rest.value) == head + tail.value + rest.value;
      }
    }
  }

  lemma NextCursorIsServed(nextSequence: u64, records: seq<LogRecord>, cursor: u64, limit: nat)
    requires WellFormedLog(nextSequence, records) && cursor <= Latest(nextSequence)
    requires !IsGap(nextSequence, records, cursor)
    ensures var start := Start(nextSequence, records, cursor);
            var next := cursor + Min(limit, |records| - start);
            && next <= Latest(nextSequence) && !IsGap(nextSequence, records, next)
            && Start(nextSequence, records, next) == start + Min(limit, |records| - start)
  {
  }

  /** One page and the pages after it, when they show the records they should. */
  lemma OnePageMore(
    view: LogRecord -> Result<PublicLogRecord>, nextSequence: u64, records: seq<LogRecord>, cursor: u64, limit: u32,
    rest: Result<seq<PublicLogRecord>>, later: nat)
    requires WellFormedLog(nextSequence, records) && cursor <= Latest(nextSequence)
    requires !IsGap(nextSequence, records, cursor) && 0 < limit <= MAX_QUERY_RECORDS
    requires var start := Start(nextSequence, records, cursor);
             start <= |records| && rest == ShowFrom(view, records, start + Min(limit, |records| - start), later)
    ensures var page := ShowFrom(view, records, Start(nextSequence, records, cursor), limit);
            (if page.Err? then page else Prepend(page.value, rest))
            == ShowFrom(view, records, Start(nextSequence, records, cursor), limit + later)
  {
    ShowFromSplits(view, records, Start(nextSequence, records, cursor), limit, later);
  }

  lemma PagesStep(
    view: LogRecord -> Result<PublicLogRecord>, nextSequence: u64, records: seq<LogRecord>, cursor: u64, limits: seq<u32>)
    requires WellFormedLog(nextSequence, records) && cursor <= Latest(nextSequence)
    requires !IsGap(nextSequence, records, cursor) && limits != [] && 0 < limits[0] <= MAX_QUERY_RECORDS
    ensures var start := Start(nextSequence, records, cursor);
            var page := ShowFrom(view, records, start, limits[0]);
            var next := cursor + Min(limits[0], |records| - start);
            && start <= |records| && next <= U64_MAX
            && Pages(view, nextSequence, records, cursor, limits)
               == if page.Err? then page else Prepend(page.value, Pages(view, nextSequence, records, next, limits[1..]))
  {
  }

  /**
   * Paging by the returned cursor, with any accepted limits, shows exactly the records after the
   * starting cursor, in order and without repeats, as many as the limits add up to.
   */
  lemma {:induction false} PagesAreTheRecordsAfterTheCursor(
    view: LogRecord -> Result<PublicLogRecord>, nextSequence: u64, records: seq<LogRecord>, cursor: u64, limits: seq<u32>)
    requires WellFormedLog(nextSequence, records) && cursor <= Latest(nextSequence)
    requires !IsGap(nextSequence, records, cursor)
    requires AcceptedLimits(limits)
    ensures Pages(view, nextSequence, records, cursor, limits)
            == ShowFrom(view, records, Start(nextSequence, records, cursor), Sum(limits))
    decreases |limits|
  {
    if limits != [] {
      var start := Start(nextSequence, records, cursor);
      var next := cursor + Min(limits[0], |records| - start);
      PagesStep(view, nextSequence, records, cursor, limits);
      NextCursorIsServed(nextSequence, records, cursor, limits[0]);
      PagesAreTheRecordsAfterTheCursor(view, nextSequence, records, next, limits[1..]);
      OnePageMore(
        view, nextSequence, records, cursor, limits[0],
        Pages(view, nextSequence, records, next, limits[1..]), Sum(limits[1..]));
    }
  }

  /** Every field is the record's own, and a shown request is one its caller could have executed. */
  ghost predicate ShowsRecord(context: PermissionContext, record: LogRecord, shown: PublicLogRecord) {
    && shown == Public(record, shown.replayRequest)
    && (shown.replayRequest.Some? ==>
          && record.replayRequest.Some? && shown.replayRequest == record.replayRequest.value.decoded
          && CommandDecision(context, shown.replayRequest.value).Ok?)
  }

  lemma ShownRecordIsAuthorized(context: PermissionContext, detail: Detail, record: LogRecord)
    ensures var shown := View(context, detail)(record);
            && (detail == Metadata ==> shown.Ok? && shown.value.replayRequest.None?)
            && (shown.Ok? ==> ShowsRecord(context, record, shown.value))
  {
    assert View(context, detail)(record) == Shown(context, detail, record);
  }

  ghost predicate ShowsWindow(context: PermissionContext, records: seq<LogRecord>, k: nat, page: seq<PublicLogRecord>) {
    && k + |page| <= |records|
    && forall i :: 0 <= i < |page| ==> ShowsRecord(context, records[k + i], page[i])
  }

  lemma OneMoreShown(
    context: PermissionContext, records: seq<LogRecord>, k: nat, first: PublicLogRecord, rest: seq<PublicLogRecord>)
    requires k < |records| && ShowsRecord(context, records[k], first) && ShowsWindow(context, records, k + 1, rest)
    ensures ShowsWindow(context, records, k, [first] + rest)
  {
    var page := [first] + rest;
    forall i | 0 <= i < |page| ensures ShowsRecord(context, records[k + i], page[i]) {
      if i > 0 {
        assert page[i] == rest[i - 1] && records[k + i] == records[k + 1 + (i - 1)];
      }
    }
  }

  /** What a shown page is: each record in place, with no request its caller could not have executed. */
  lemma {:induction false} ShownPageIsAuthorized(
    context: PermissionContext, detail: Detail, records: seq<LogRecord>, k: nat, limit: nat)
    requires k <= |records|
    ensures var page := ShowFrom(View(context, detail), records, k, limit);
            && (detail == Metadata ==> page.Ok?)
            && (page.Ok? ==> |page.value| == Min(limit, |records| - k) && ShowsWindow(context, records, k, page.value))
    decreases limit
  {
    if limit > 0 && k < |records| {
      ShownRecordIsAuthorized(context, detail, records[k]);
      ShownPageIsAuthorized(context, detail, records, k + 1, limit - 1);
      var first, rest := View(context, detail)(records[k]), ShowFrom(View(context, detail), records, k + 1, limit - 1);
      if first.Ok? && rest.Ok? {
        OneMoreShown(context, records, k, first.value, rest.value);
      }
    }
  }
}
