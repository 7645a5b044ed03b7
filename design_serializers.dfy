/** The design serializers: version status and per-design version names,
  * and the nested version list with its count. The assignee rules are in
  * `AssigneeSerializers`, the history list in `HistoryLists`. */
module DesignSerializers {
  import opened Common
  import opened Sorting
  import opened Validation

  /** `DesignVersion.STATUS_CHOICES`. */
  const VERSION_STATUSES: seq<string> := ["DRAFT", "IN_REVIEW", "APPROVED", "REJECTED", "SUBMITTED"]

  /** A `DesignVersion` row. */
  datatype Version = Version(design: int, name: string, status: string, createdAt: Time, deletedAt: Option<Time>)

  /** `DesignVersionModelSerializer.validate_status`. */
  function ValidateVersionStatus(value: string): (r: Result<string, Rejection>)
    ensures r.Ok? <==> value in VERSION_STATUSES
    ensures |VERSION_STATUSES| == 5
  {
    ValidateChoice("status", value, VERSION_STATUSES)
  }

  function LiveVersion(): Version -> bool {
    (v: Version) => v.deletedAt.None?
  }

  function DesignName(v: Version): (int, string) {
    (v.design, v.name)
  }

  /** `DesignVersionModelSerializer.validate`: with the design and a
    * non-empty name known (from the input or the stored version `self`), a
    * live version other than `self` with the same design and name rejects
    * on `name`. */
  function ValidateVersion(versions: seq<Version>, design: Option<int>, name: Option<string>, self: Option<int>): (r: Option<Rejection>)
    requires self.Some? ==> 0 <= self.value < |versions|
    ensures var d := OrRef(design, if self.Some? then Some(versions[self.value].design) else None);
            var n := OrStr(name, if self.Some? then Some(versions[self.value].name) else None);
            r.Some? <==> d.Some? && TruthyStr(n) && Taken(versions, LiveVersion(), DesignName, (d.value, n.value), self)
    ensures r.Some? ==> r.value.field == "name"
  {
    var d := OrRef(design, if self.Some? then Some(versions[self.value].design) else None);
    var n := OrStr(name, if self.Some? then Some(versions[self.value].name) else None);
    if d.Some? && TruthyStr(n) && Taken(versions, LiveVersion(), DesignName, (d.value, n.value), self) then
      Some(Rejection("name"))
    else None
  }

  /** A rename the check accepted keeps version names unique per design
    * among live versions. */
  lemma {:induction false} RenameKeepsUnique(versions: seq<Version>, n: int, name: string)
    requires UniqueOn(versions, LiveVersion(), DesignName) && 0 <= n < |versions| && name != ""
    requires ValidateVersion(versions, None, Some(name), Some(n)).None?
    ensures UniqueOn(versions[n := versions[n].(name := name)], LiveVersion(), DesignName)
  {
    UpdateKeepsUnique(versions, LiveVersion(), DesignName, n, versions[n].(name := name));
  }

  /** A version created after the check passed keeps names unique. */
  lemma {:induction false} VersionCreateKeepsUnique(versions: seq<Version>, design: int, name: string, status: string, now: Time)
    requires UniqueOn(versions, LiveVersion(), DesignName) && name != ""
    requires ValidateVersion(versions, Some(design), Some(name), None).None?
    ensures UniqueOn(versions + [Version(design, name, status, now, None)], LiveVersion(), DesignName)
  {
    InsertKeepsUnique(versions, LiveVersion(), DesignName, Version(design, name, status, now, None));
  }

  function LiveVersionOf(design: int): Version -> bool {
    (v: Version) => v.design == design && v.deletedAt.None?
  }

  function NewestFirst(v: Version): int {
    -v.createdAt
  }

  /** `get_versions`: the design's live versions, each once, newest first. */
  function VersionIds(versions: seq<Version>, design: int): (r: seq<int>)
    ensures forall k :: 0 <= k < |r| ==> 0 <= r[k] < |versions| && versions[r[k]].design == design
                                          && versions[r[k]].deletedAt.None?
    ensures forall i :: (0 <= i < |versions| && versions[i].design == design && versions[i].deletedAt.None?) ==> i in r
    ensures forall j, k :: 0 <= j < k < |r| ==> versions[r[j]].createdAt >= versions[r[k]].createdAt
    ensures Distinct(r)
  {
    Query(versions, LiveVersionOf(design), NewestFirst)
  }

  /** `get_versions_count`: the `.count()` of the same filter. */
  function VersionsCount(versions: seq<Version>, design: int): (r: nat)
    ensures r == |VersionIds(versions, design)|
  {
    QueryCount(versions, LiveVersionOf(design), NewestFirst);
    Count(versions, LiveVersionOf(design))
  }
}
