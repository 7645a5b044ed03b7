/** `OutboxService`: creating a soft-delete event, publishing it once the
  * transaction commits, and the two queries the fallback publisher uses.
  * An event's id is its index in the `outbox_events` table. */
module OutboxServices {
  import opened Common
  import opened Sorting
  import opened OutboxModels

  const SOFT_DELETE_PROPAGATE: string := "soft_delete.propagate"
  const DEFAULT_LIMIT: nat := 100

  predicate IsPending(e: EventRow) {
    e.status == PENDING
  }

  /** FAILED with retries left (`retry_count < F('max_retries')`). */
  predicate IsRetryable(e: EventRow) {
    e.status == FAILED && ShouldRetry(e)
  }

  /** The database orders `last_error_at` ascending with NULL first. */
  predicate ErrorBefore(a: EventRow, b: EventRow) {
    a.lastErrorAt.None? || (b.lastErrorAt.Some? && a.lastErrorAt.value <= b.lastErrorAt.value)
  }

  /** A prefix of a duplicate-free list is duplicate-free. */
  lemma {:induction false} TakeKeepsDistinct(s: seq<int>, n: nat)
    requires Distinct(s)
    ensures Distinct(Take(s, n))
  {
    var t := Take(s, n);
    forall i, j | 0 <= i < j < |t|
      ensures t[i] != t[j]
    {
      assert t[i] == s[i] && t[j] == s[j];
    }
  }

  /** `get_pending_events`: PENDING events, oldest first, at most `limit`. */
  function GetPendingEvents(events: seq<EventRow>, limit: nat): (r: seq<int>)
    ensures |r| <= limit && Distinct(r)
    ensures forall k :: 0 <= k < |r| ==> 0 <= r[k] < |events| && IsPending(events[r[k]])
    ensures forall j, k :: 0 <= j < k < |r| ==> events[r[j]].createdAt <= events[r[k]].createdAt
    ensures |r| < limit ==> forall i :: 0 <= i < |events| && IsPending(events[i]) ==> i in r
  {
    var all := Query(events, (e: EventRow) => IsPending(e), CreatedTime());
    TakeKeepsDistinct(all, limit);
    Take(all, limit)
  }

  /** `get_failed_events_for_retry`: FAILED events with retries left, by
    * `last_error_at` with never-stamped ones first, at most `limit`. */
  function GetFailedEventsForRetry(events: seq<EventRow>, limit: nat): (r: seq<int>)
    ensures |r| <= limit && Distinct(r)
    ensures forall k :: 0 <= k < |r| ==> 0 <= r[k] < |events| && IsRetryable(events[r[k]])
    ensures forall j, k :: 0 <= j < k < |r| ==> ErrorBefore(events[r[j]], events[r[k]])
    ensures |r| < limit ==> forall i :: 0 <= i < |events| && IsRetryable(events[i]) ==> i in r
  {
    var all := RetryQueue(events);
    RetryQueueFacts(events);
    TakeKeepsDistinct(all, limit);
    Take(all, limit)
  }

  /** A retryable event that never recorded an error. */
  function Unstamped(): EventRow -> bool {
    (e: EventRow) => IsRetryable(e) && e.lastErrorAt.None?
  }

  /** A retryable event with an error time. */
  function Stamped(): EventRow -> bool {
    (e: EventRow) => IsRetryable(e) && e.lastErrorAt.Some?
  }

  /** The sort key of a stamped event. */
  function ErrorTime(): EventRow -> int {
    (e: EventRow) => if e.lastErrorAt.Some? then e.lastErrorAt.value else 0
  }

  function CreatedTime(): EventRow -> int {
    (e: EventRow) => e.createdAt
  }

  /** Every retryable event in the order of the query, before the limit. */
  function RetryQueue(events: seq<EventRow>): seq<int> {
    Query(events, Unstamped(), CreatedTime()) + Query(events, Stamped(), ErrorTime())
  }

  /** The queue holds each retryable event once, in `ErrorBefore` order. */
  lemma {:induction false} RetryQueueFacts(events: seq<EventRow>)
    ensures var q := RetryQueue(events);
            Distinct(q)
            && (forall k :: 0 <= k < |q| ==> 0 <= q[k] < |events| && IsRetryable(events[q[k]]))
            && (forall j, k :: 0 <= j < k < |q| ==> ErrorBefore(events[q[j]], events[q[k]]))
            && (forall i :: 0 <= i < |events| && IsRetryable(events[i]) ==> i in q)
  {
    var unstamped := Query(events, Unstamped(), CreatedTime());
    var stamped := Query(events, Stamped(), ErrorTime());
    var q := unstamped + stamped;
    forall j, k | 0 <= j < k < |stamped|
      ensures events[stamped[j]].lastErrorAt.value <= events[stamped[k]].lastErrorAt.value
    {
      assert ErrorTime()(events[stamped[j]]) <= ErrorTime()(events[stamped[k]]);
    }
    NullsFirst(events, unstamped, stamped);
    forall k | 0 <= k < |q| ensures 0 <= q[k] < |events| && IsRetryable(events[q[k]]) {
      if k < |unstamped| { assert q[k] == unstamped[k]; } else { assert q[k] == stamped[k - |unstamped|]; }
    }
    forall i | 0 <= i < |events| && IsRetryable(events[i]) ensures i in q {
      if events[i].lastErrorAt.None? {
        assert Unstamped()(events[i]);
        assert i in unstamped;
      } else {
        assert Stamped()(events[i]);
        assert i in stamped;
      }
    }
  }

  /** The never-stamped events followed by the stamped ones in order form one
    * duplicate-free list ordered by `ErrorBefore`. */
  lemma {:induction false} NullsFirst(events: seq<EventRow>, unstamped: seq<int>, stamped: seq<int>)
    requires Distinct(unstamped) && Distinct(stamped)
    requires forall k :: 0 <= k < |unstamped| ==> 0 <= unstamped[k] < |events| && events[unstamped[k]].lastErrorAt.None?
    requires forall k :: 0 <= k < |stamped| ==> 0 <= stamped[k] < |events| && events[stamped[k]].lastErrorAt.Some?
    requires forall j, k :: 0 <= j < k < |stamped| ==>
               events[stamped[j]].lastErrorAt.value <= events[stamped[k]].lastErrorAt.value
    ensures Distinct(unstamped + stamped)
    ensures forall j, k :: 0 <= j < k < |unstamped + stamped| ==>
              ErrorBefore(events[(unstamped + stamped)[j]], events[(unstamped + stamped)[k]])
  {
    var all := unstamped + stamped;
    forall i, j | 0 <= i < j < |all|
      ensures all[i] != all[j]
    {
      if i < |unstamped| && j >= |unstamped| {
        assert events[all[i]].lastErrorAt.None? && events[all[j]].lastErrorAt.Some?;
      }
    }
    forall j, k | 0 <= j < k < |all|
      ensures ErrorBefore(events[all[j]], events[all[k]])
    {
      if j >= |unstamped| {
        assert all[j] == stamped[j - |unstamped|] && all[k] == stamped[k - |unstamped|];
      }
    }
  }

  /** The `outbox_events` table. */
  class OutboxStore {
    var events: seq<EventRow>

    ghost predicate Valid()
      reads this
    {
      forall i :: 0 <= i < |events| ==> events[i].id == i
    }

    constructor ()
      ensures Valid() && events == []
    {
      events := [];
    }

    /** `create_soft_delete_event`: a PENDING `soft_delete.propagate` event
      * for the aggregate; its publication waits for the commit. */
    method CreateSoftDeleteEvent(aggregateType: string, aggregateId: string, eventData: Json, now: Time)
      returns (id: int)
      requires Valid()
      modifies this
      ensures Valid()
      ensures id == |old(events)|
      ensures events == old(events) + [NewEvent(id, SOFT_DELETE_PROPAGATE, aggregateType, aggregateId, eventData, now)]
      ensures events[id].status == PENDING && events[id].eventType == SOFT_DELETE_PROPAGATE
      ensures events[id].aggregateId == aggregateId && events[id].eventData == eventData
    {
      id := |events|;
      events := events + [NewEvent(id, SOFT_DELETE_PROPAGATE, aggregateType, aggregateId, eventData, now)];
    }

    /** `_publish_event_immediately`: `dispatched` is the task id the queue
      * returned, or `None` when handing the task over raised; the error is
      * only logged and the event stays as it was. */
    method PublishEventImmediately(id: int, dispatched: Option<string>, now: Time)
      requires Valid() && 0 <= id < |events|
      modifies this
      ensures Valid()
      ensures dispatched.None? ==> events == old(events)
      ensures dispatched.Some? ==> events == old(events)[id := Published(old(events)[id], dispatched, now)]
      ensures dispatched.Some? ==> events[id].status == PUBLISHED && id !in GetPendingEvents(events, DEFAULT_LIMIT)
    {
      if dispatched.Some? {
        var event := new OutboxEvent(events[id]);
        event.MarkAsPublished(dispatched, now);
        events := events[id := event.Row()];
      }
    }
  }
}
