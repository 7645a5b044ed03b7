/** `OutboxEvent`: an event stored in the same transaction as the change it
  * announces, then published to the task queue, processed, or failed with
  * a retry counter. */
module OutboxModels {
  import opened Common

  const PENDING: string := "PENDING"
  const PUBLISHED: string := "PUBLISHED"
  const PROCESSED: string := "PROCESSED"
  const FAILED: string := "FAILED"

  /** The choices of `OutboxEventStatus`. */
  predicate IsEventStatus(s: string) {
    s == PENDING || s == PUBLISHED || s == PROCESSED || s == FAILED
  }

  const DEFAULT_MAX_RETRIES: int := 3

  /** One row of the `outbox_events` table. */
  datatype EventRow = EventRow(
    id: int,
    eventType: string,
    aggregateType: string,
    aggregateId: string,
    eventData: Json,
    status: string,
    retryCount: int,
    maxRetries: int,
    errorMessage: Option<string>,
    lastErrorAt: Option<Time>,
    celeryTaskId: Option<string>,
    createdAt: Time,
    publishedAt: Option<Time>,
    processedAt: Option<Time>)

  /** A row as `objects.create` stores it when only the event fields are
    * given: every other column takes its default. */
  function NewEvent(id: int, eventType: string, aggregateType: string, aggregateId: string,
                    eventData: Json, now: Time): (e: EventRow)
    ensures e.status == PENDING && e.retryCount == 0 && e.maxRetries == DEFAULT_MAX_RETRIES
    ensures e.errorMessage.None? && e.lastErrorAt.None? && e.celeryTaskId.None?
    ensures e.publishedAt.None? && e.processedAt.None? && e.createdAt == now
    ensures e.id == id && e.eventType == eventType && e.aggregateType == aggregateType
    ensures e.aggregateId == aggregateId && e.eventData == eventData
  {
    EventRow(id, eventType, aggregateType, aggregateId, eventData, PENDING, 0, DEFAULT_MAX_RETRIES,
             None, None, None, now, None, None)
  }

  /** `mark_as_published`: PUBLISHED at `now`; the task id is replaced only
    * when a non-empty one is given. */
  function Published(e: EventRow, taskId: Option<string>, now: Time): (r: EventRow)
    ensures r.status == PUBLISHED && r.publishedAt == Some(now)
    ensures r.celeryTaskId == if TruthyStr(taskId) then taskId else e.celeryTaskId
    ensures r.(status := e.status, publishedAt := e.publishedAt, celeryTaskId := e.celeryTaskId) == e
  {
    e.(status := PUBLISHED, publishedAt := Some(now), celeryTaskId := OrStr(taskId, e.celeryTaskId))
  }

  /** `mark_as_processed`: PROCESSED at `now`. */
  function Processed(e: EventRow, now: Time): (r: EventRow)
    ensures r.status == PROCESSED && r.processedAt == Some(now)
    ensures r.(status := e.status, processedAt := e.processedAt) == e
  {
    e.(status := PROCESSED, processedAt := Some(now))
  }

  /** `mark_as_failed`: FAILED with the message at `now`, one more retry used. */
  function Failed(e: EventRow, message: string, now: Time): (r: EventRow)
    ensures r.status == FAILED && r.errorMessage == Some(message) && r.lastErrorAt == Some(now)
    ensures r.retryCount == e.retryCount + 1
    ensures r.(status := e.status, errorMessage := e.errorMessage, lastErrorAt := e.lastErrorAt,
               retryCount := e.retryCount) == e
  {
    e.(status := FAILED, errorMessage := Some(message), lastErrorAt := Some(now), retryCount := e.retryCount + 1)
  }

  /** `should_retry`: retries remain. */
  predicate ShouldRetry(e: EventRow) {
    e.retryCount < e.maxRetries
  }

  /** Starting from the defaults, the event may be retried after fewer than
    * three failures and not after the third. */
  lemma {:induction false} DefaultRetryBudget(e: EventRow, messages: seq<string>, times: seq<Time>)
    requires e.retryCount == 0 && e.maxRetries == DEFAULT_MAX_RETRIES && |messages| == |times|
    ensures ShouldRetry(FailAll(e, messages, times)) <==> |messages| < 3
  {
    FailAllCounts(e, messages, times);
  }

  /** The row after failing once per message, in order. */
  function FailAll(e: EventRow, messages: seq<string>, times: seq<Time>): EventRow
    requires |messages| == |times|
    decreases |messages|
  {
    if messages == [] then e
    else FailAll(Failed(e, messages[0], times[0]), messages[1..], times[1..])
  }

  lemma {:induction false} FailAllCounts(e: EventRow, messages: seq<string>, times: seq<Time>)
    requires |messages| == |times|
    ensures FailAll(e, messages, times).retryCount == e.retryCount + |messages|
    ensures FailAll(e, messages, times).maxRetries == e.maxRetries
    decreases |messages|
  {
    if messages != [] {
      FailAllCounts(Failed(e, messages[0], times[0]), messages[1..], times[1..]);
    }
  }

  /** An `OutboxEvent` instance, whose `mark_as_*` methods update it in place. */
  class OutboxEvent {
    const id: int
    const eventType: string
    const aggregateType: string
    const aggregateId: string
    const eventData: Json
    var status: string
    var retryCount: int
    const maxRetries: int
    var errorMessage: Option<string>
    var lastErrorAt: Option<Time>
    var celeryTaskId: Option<string>
    const createdAt: Time
    var publishedAt: Option<Time>
    var processedAt: Option<Time>

    /** The instance's current column values. */
    function Row(): EventRow
      reads this
    {
      EventRow(id, eventType, aggregateType, aggregateId, eventData, status, retryCount, maxRetries,
               errorMessage, lastErrorAt, celeryTaskId, createdAt, publishedAt, processedAt)
    }

    /** An instance loaded from a stored row. */
    constructor (e: EventRow)
      ensures Row() == e
    {
      id, eventType, aggregateType, aggregateId, eventData := e.id, e.eventType, e.aggregateType, e.aggregateId, e.eventData;
      status, retryCount, maxRetries := e.status, e.retryCount, e.maxRetries;
      errorMessage, lastErrorAt, celeryTaskId := e.errorMessage, e.lastErrorAt, e.celeryTaskId;
      createdAt, publishedAt, processedAt := e.createdAt, e.publishedAt, e.processedAt;
    }

    method MarkAsPublished(taskId: Option<string>, now: Time)
      modifies this
      ensures Row() == Published(old(Row()), taskId, now)
    {
      status := PUBLISHED;
      publishedAt := Some(now);
      if TruthyStr(taskId) {
        celeryTaskId := taskId;
      }
    }

    method MarkAsProcessed(now: Time)
      modifies this
      ensures Row() == Processed(old(Row()), now)
    {
      status := PROCESSED;
      processedAt := Some(now);
    }

    method MarkAsFailed(message: string, now: Time)
      modifies this
      ensures Row() == Failed(old(Row()), message, now)
    {
      status := FAILED;
      errorMessage := Some(message);
      lastErrorAt := Some(now);
      retryCount := retryCount + 1;
    }

    predicate CanRetry()
      reads this
      ensures CanRetry() <==> ShouldRetry(Row())
    {
      retryCount < maxRetries
    }
  }
}
