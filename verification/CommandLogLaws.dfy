/** What the command log keeps, accepts, and shows, said without the functions that compute it. */
module CommandLogLaws {
  import opened Core
  import opened Text
  import Settings
  import opened Permissions
  import opened ProjectCommands
  import opened CommandLog

  // ----- What a caller is shown -----

  /** At replay detail, a retained request that cannot be decoded or that this caller may not execute. */
  ghost predicate Refused(context: PermissionContext, detail: Detail, record: LogRecord) {
    && detail == Replayable && record.replayRequest.Some?
    && (record.replayRequest.value.decoded.None?
        || CommandDecision(context, record.replayRequest.value.decoded.value).Err?)
  }

  ghost function RefusalOf(context: PermissionContext, record: LogRecord): ErrorCategory
    requires Refused(context, Replayable, record)
  {
    if record.replayRequest.value.decoded.None? then CorruptData
    else CommandDecision(context, record.replayRequest.value.decoded.value).error
  }

  /** All of the record, with its request exactly at replay detail and if it was retained. */
  predicate ShowsAll(detail: Detail, record: LogRecord, shown: PublicLogRecord) {
    && shown.sequence == record.sequence && shown.evidence == record.evidence && shown.execution == record.execution
    && shown.retained == record.replayRequest.Some?
    && shown.replayRequest ==
         if detail == Replayable && record.replayRequest.Some? then record.replayRequest.value.decoded else None
  }

  /** A record is refused for its own reason or shown in full: an authorized request is never withheld. */
  lemma RecordIsShownOrRefused(context: PermissionContext, detail: Detail, record: LogRecord)
    ensures match Shown(context, detail, record)
            case Err(e) => Refused(context, detail, record) && e == RefusalOf(context, record)
            case Ok(shown) => !Refused(context, detail, record) && ShowsAll(detail, record, shown)
  {
  }

  predicate FailsFirst(view: LogRecord -> Result<PublicLogRecord>, window: seq<LogRecord>, i: nat, e: ErrorCategory) {
    && i < |window| && view(window[i]) == Err(e)
    && forall j :: 0 <= j < i ==> view(window[j]).Ok?
  }

  /** The page of a window: every record as viewed, or the first failure. */
  ghost predicate Viewed(
    view: LogRecord -> Result<PublicLogRecord>, window: seq<LogRecord>, page: Result<seq<PublicLogRecord>>)
  {
    match page
    case Ok(shown) => |shown| == |window| && forall i :: 0 <= i < |window| ==> view(window[i]) == Ok(shown[i])
    case Err(e) => exists i: nat :: FailsFirst(view, window, i, e)
  }

  lemma OneRecordMore(
    view: LogRecord -> Result<PublicLogRecord>, first: LogRecord, rest: seq<LogRecord>, page: Result<seq<PublicLogRecord>>)
    requires Viewed(view, rest, page)
    ensures match view(first)
            case Err(e) => Viewed(view, [first] + rest, Err(e))
            case Ok(shown) => Viewed(view, [first] + rest, if page.Ok? then Ok([shown] + page.value) else page)
  {
    var window := [first] + rest;
    match view(first) {
      case Err(e) => assert FailsFirst(view, window, 0, e);
      case Ok(_) =>
        if page.Err? {
          var i: nat :| FailsFirst(view, rest, i, page.error);
          assert FailsFirst(view, window, i + 1, page.error);
        }
    }
  }

  lemma {:induction false} PageIsViewed(
    view: LogRecord -> Result<PublicLogRecord>, records: seq<LogRecord>, k: nat, limit: nat)
    requires k <= |records|
    ensures Viewed(view, records[k..Min(|records|, k + limit)], ShowFrom(view, records, k, limit))
    decreases limit
  {
    if limit > 0 && k < |records| {
      PageIsViewed(view, records, k + 1, limit - 1);
      var to := Min(|records|, k + limit);
      OneRecordMore(view, records[k], records[k + 1..to], ShowFrom(view, records, k + 1, limit - 1));
      assert records[k..to] == [records[k]] + records[k + 1..to];
    }
  }

  ghost predicate FirstRefused(
    context: PermissionContext, detail: Detail, window: seq<LogRecord>, i: nat, e: ErrorCategory)
  {
    && i < |window| && Refused(context, detail, window[i]) && e == RefusalOf(context, window[i])
    && forall j :: 0 <= j < i ==> !Refused(context, detail, window[j])
  }

  /** Every record of the window in full, or the failure of the first one refused. */
  ghost predicate PageDecided(
    context: PermissionContext, detail: Detail, window: seq<LogRecord>, page: Result<seq<PublicLogRecord>>)
  {
    match page
    case Ok(shown) =>
      && |shown| == |window|
      && forall i :: 0 <= i < |window| ==> !Refused(context, detail, window[i]) && ShowsAll(detail, window[i], shown[i])
    case Err(e) => exists i: nat :: FirstRefused(context, detail, window, i, e)
  }

  lemma PageIsDecided(
    context: PermissionContext, detail: Detail, window: seq<LogRecord>, page: Result<seq<PublicLogRecord>>)
    requires Viewed(View(context, detail), window, page)
    ensures PageDecided(context, detail, window, page)
  {
    forall i | 0 <= i < |window|
      ensures match View(context, detail)(window[i])
              case Err(e) => Refused(context, detail, window[i]) && e == RefusalOf(context, window[i])
              case Ok(shown) => !Refused(context, detail, window[i]) && ShowsAll(detail, window[i], shown)
    {
      RecordIsShownOrRefused(context, detail, window[i]);
    }
    if page.Err? {
      var i: nat :| FailsFirst(View(context, detail), window, i, page.error);
      assert FirstRefused(context, detail, window, i, page.error);
    }
  }

  // ----- What a query answers -----

  /** Retained records are the last ones: the record with sequence s is retained exactly from `first` on. */
  function FirstRetained(nextSequence: u64, records: seq<LogRecord>): int {
    nextSequence - |records|
  }

  predicate ValidQuery(nextSequence: u64, cursor: u64, limit: u32) {
    1 <= limit <= 256 && cursor < nextSequence
  }

  predicate NeedsEvicted(nextSequence: u64, records: seq<LogRecord>, cursor: u64) {
    cursor + 1 < FirstRetained(nextSequence, records)
  }

  /** The retained records right after the cursor, at most as many as asked for. */
  function Window(nextSequence: u64, records: seq<LogRecord>, cursor: u64, limit: u32): seq<LogRecord>
    requires WellFormedLog(nextSequence, records) && cursor < nextSequence
    requires !NeedsEvicted(nextSequence, records, cursor)
  {
    var from := cursor + 1 - FirstRetained(nextSequence, records);
    if from + limit <= |records| then records[from..from + limit] else records[from..]
  }

  lemma WindowIsSlice(nextSequence: u64, records: seq<LogRecord>, cursor: u64, limit: u32)
    requires WellFormedLog(nextSequence, records) && cursor < nextSequence
    requires !NeedsEvicted(nextSequence, records, cursor)
    ensures var from := cursor + 1 - FirstRetained(nextSequence, records);
            && 0 <= from <= Min(|records|, from + limit)
            && Window(nextSequence, records, cursor, limit) == records[from..Min(|records|, from + limit)]
            && |Window(nextSequence, records, cursor, limit)| == Min(limit, |records| - from)
  {
  }

  predicate DescribesPage(nextSequence: u64, records: seq<LogRecord>, cursor: u64, count: nat, result: LogQueryResult) {
    && result.Records? && result.afterSequence == cursor && result.throughSequence == cursor + count
    && result.latest == nextSequence - 1
    && result.oldest == if records == [] then None else Some(FirstRetained(nextSequence, records))
  }

  function PageOf(answer: Result<LogQueryResult>): Result<seq<PublicLogRecord>> {
    match answer
    case Err(e) => Err(e)
    case Ok(Records(_, _, _, _, page)) => Ok(page)
    case Ok(LogResyncRequired(_, _, _)) => Ok([])
  }

  lemma ServedAnswer(
    view: LogRecord -> Result<PublicLogRecord>, nextSequence: u64, records: seq<LogRecord>, cursor: u64, limit: u32)
    requires WellFormedLog(nextSequence, records) && ValidQuery(nextSequence, cursor, limit)
    requires !NeedsEvicted(nextSequence, records, cursor)
    ensures var from := cursor + 1 - FirstRetained(nextSequence, records);
            var answer := Answer(view, nextSequence, records, cursor, limit);
            && PageOf(answer) == ShowFrom(view, records, from, limit)
            && (answer.Ok? ==> DescribesPage(nextSequence, records, cursor, Min(limit, |records| - from), answer.value))
  {
  }

  lemma AnswerIsViewed(
    view: LogRecord -> Result<PublicLogRecord>, nextSequence: u64, records: seq<LogRecord>, cursor: u64, limit: u32)
    requires WellFormedLog(nextSequence, records) && ValidQuery(nextSequence, cursor, limit)
    requires !NeedsEvicted(nextSequence, records, cursor)
    ensures Viewed(
              view, Window(nextSequence, records, cursor, limit),
              PageOf(Answer(view, nextSequence, records, cursor, limit)))
  {
    PageIsViewed(view, records, cursor + 1 - FirstRetained(nextSequence, records), limit);
    WindowIsSlice(nextSequence, records, cursor, limit);
    ServedAnswer(view, nextSequence, records, cursor, limit);
  }

  /**
   * A query is invalid outside 1..=256 or beyond the latest sequence, and needs a resync when the next
   * record was evicted.
   */
  lemma QueryIsRefused(
    view: LogRecord -> Result<PublicLogRecord>, nextSequence: u64, records: seq<LogRecord>, cursor: u64, limit: u32)
    requires WellFormedLog(nextSequence, records)
    ensures var answer := Answer(view, nextSequence, records, cursor, limit);
            && (!ValidQuery(nextSequence, cursor, limit) ==> answer == Err(InvalidInput))
            && (ValidQuery(nextSequence, cursor, limit) && NeedsEvicted(nextSequence, records, cursor) ==>
                  answer == Ok(LogResyncRequired(cursor, FirstRetained(nextSequence, records), nextSequence - 1)))
  {
  }

  /** Any other query answers its window in full, or the failure of the first record refused. */
  lemma QueryDecides(context: PermissionContext, nextSequence: u64, records: seq<LogRecord>, q: LogQuery)
    requires WellFormedLog(nextSequence, records) && ValidQuery(nextSequence, q.afterSequence, q.requestedLimit)
    requires !NeedsEvicted(nextSequence, records, q.afterSequence)
    ensures var answer := Answer(View(context, q.detail), nextSequence, records, q.afterSequence, q.requestedLimit);
            var window := Window(nextSequence, records, q.afterSequence, q.requestedLimit);
            && PageDecided(context, q.detail, window, PageOf(answer))
            && (answer.Ok? ==> DescribesPage(nextSequence, records, q.afterSequence, |window|, answer.value))
  {
    var view := View(context, q.detail);
    AnswerIsViewed(view, nextSequence, records, q.afterSequence, q.requestedLimit);
    ServedAnswer(view, nextSequence, records, q.afterSequence, q.requestedLimit);
    WindowIsSlice(nextSequence, records, q.afterSequence, q.requestedLimit);
    PageIsDecided(
      context, q.detail, Window(nextSequence, records, q.afterSequence, q.requestedLimit),
      PageOf(Answer(view, nextSequence, records, q.afterSequence, q.requestedLimit)));
  }

  // ----- What an append accepts and counts -----

  /** Nonempty, at most 256 bytes of UTF-8, and free of control characters. */
  predicate GoodLabel(text: string) {
    && text != "" && Utf8Length(text) <= 256
    && forall i :: 0 <= i < |text| ==> !IsControl(text[i])
  }

  /**
   * The record of a request is acceptable exactly when its labels are good, the execution started at the
   * revision the caller expected, and the revision moved up if and only if something changed. The request
   * bytes are kept up to one mebibyte; beyond that only their length and digest are.
   */
  lemma AppendAcceptsIff(
    transactionId: string, methodName: string, schemaVersion: Settings.SemanticVersion, kind: CommandKind,
    expectedRevision: u64, request: Request, sequence: u64, e: Execution)
    requires sequence > 0
    ensures var prepared := Prepare(transactionId, methodName, schemaVersion, kind, expectedRevision, request);
            && prepared.Ok? == (GoodLabel(transactionId) && GoodLabel(methodName))
            && (prepared.Err? ==> prepared.error == CorruptData)
            && (prepared.Ok? ==>
                  var draft := prepared.value;
                  && draft.evidence.requestLength == request.length && draft.evidence.requestDigest == request.digest
                  && draft.replayRequest == (if request.length <= 1024 * 1024 then Some(request) else None)
                  && (ValidRecord(LogRecord(sequence, draft.evidence, draft.replayRequest, e)) <==>
                        && e.commandSequence > 0 && e.beforeRevision == expectedRevision
                        && e.beforeRevision <= e.afterRevision
                        && (e.changed <==> e.beforeRevision < e.afterRevision)
                        && (!e.changed ==> e.beforeHash == e.afterHash)))
  {
  }

  function LabelBytes(records: seq<LogRecord>): nat {
    if records == [] then 0
    else Utf8Length(records[0].evidence.transactionId) + Utf8Length(records[0].evidence.methodName) + LabelBytes(records[1..])
  }

  function RequestBytes(records: seq<LogRecord>): nat {
    if records == [] then 0
    else (if records[0].replayRequest.Some? then records[0].replayRequest.value.length else 0) + RequestBytes(records[1..])
  }

  /** The accounted size is 512 bytes a record, plus all label bytes, plus all retained request bytes. */
  lemma {:induction false} BytesAreCounted(records: seq<LogRecord>)
    ensures TotalBytes(records) == 512 * |records| + LabelBytes(records) + RequestBytes(records)
  {
    if records != [] {
      BytesAreCounted(records[1..]);
    }
  }

  /** What retention leaves: the newest records within 4096 of them and 64 mebibytes, and no fewer. */
  lemma RetentionKeepsWhatFits(all: seq<LogRecord>, dropped: nat, kept: seq<LogRecord>)
    requires MinimalSuffix(all, dropped, kept)
    ensures |kept| == |all| - dropped > 0 && kept[|kept| - 1] == all[|all| - 1]
    ensures |kept| <= 4096 && 512 * |kept| + LabelBytes(kept) + RequestBytes(kept) <= 64 * 1024 * 1024
    ensures dropped > 0 ==>
              var more := all[dropped - 1..];
              |more| > 4096 || 512 * |more| + LabelBytes(more) + RequestBytes(more) > 64 * 1024 * 1024
  {
    BytesAreCounted(kept);
    if dropped > 0 {
      BytesAreCounted(all[dropped - 1..]);
      assert !WithinBounds(all[dropped - 1..]);
    }
  }
}
