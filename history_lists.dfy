/** The history lists of the design and sales serializers: the live
  * `DesignHistory` / `SalesHistory` rows of a record, newest first as their
  * models' `ordering = ['-created_at']` says, and their count. */
module HistoryLists {
  import opened Common
  import opened Sorting

  /** A history row; `owner` is the design or sales record. */
  datatype History = History(owner: int, user: Option<int>, content: string, createdAt: Time, deletedAt: Option<Time>)

  function LiveHistoryOf(owner: int): History -> bool {
    (h: History) => h.owner == owner && h.deletedAt.None?
  }

  function NewestFirst(h: History): int {
    -h.createdAt
  }

  /** `get_histories`: the record's live histories, each once, newest first. */
  function HistoryIds(rows: seq<History>, owner: int): (r: seq<int>)
    ensures forall k :: 0 <= k < |r| ==> 0 <= r[k] < |rows| && rows[r[k]].owner == owner && rows[r[k]].deletedAt.None?
    ensures forall i :: (0 <= i < |rows| && rows[i].owner == owner && rows[i].deletedAt.None?) ==> i in r
    ensures forall j, k :: 0 <= j < k < |r| ==> rows[r[j]].createdAt >= rows[r[k]].createdAt
    ensures Distinct(r)
  {
    Query(rows, LiveHistoryOf(owner), NewestFirst)
  }

  /** `get_histories_count`: the `.count()` of the same filter. */
  function HistoriesCount(rows: seq<History>, owner: int): (r: nat)
    ensures r == |HistoryIds(rows, owner)|
  {
    QueryCount(rows, LiveHistoryOf(owner), NewestFirst);
    Count(rows, LiveHistoryOf(owner))
  }
}
