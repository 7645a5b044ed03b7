/** The project serializers: the company links of a project grouped by
  * role with counts, the one-link-per-role rule, and the date order of a
  * project. The assignee rules are in `AssigneeSerializers`. */
module ProjectSerializers {
  import opened Common
  import opened Sorting
  import opened Validation

  const CLIENT: string := "CLIENT"
  const DESIGN: string := "DESIGN"
  const CONSTRUCTION: string := "CONSTRUCTION"

  /** `ProjectCompanyLink.ROLE_CHOICES`. */
  const ROLES: seq<string> := [CLIENT, DESIGN, CONSTRUCTION]

  /** A `ProjectCompanyLink` row. */
  datatype Link = Link(project: int, company: int, role: string, deletedAt: Option<Time>)

  function LiveLinkOf(project: int): Link -> bool {
    (l: Link) => l.project == project && l.deletedAt.None?
  }

  function LiveLinkWith(project: int, role: string): Link -> bool {
    (l: Link) => l.project == project && l.deletedAt.None? && l.role == role
  }

  /** The result of `get_company_links_by_role`: the ids of the links in
    * each role bucket and the `count` entries. */
  datatype Buckets = Buckets(client: seq<int>, design: seq<int>, construction: seq<int>,
                             clientCount: int, designCount: int, constructionCount: int, total: int)

  const EMPTY: Buckets := Buckets([], [], [], 0, 0, 0, 0)

  /** Link `id` with role `role` appended to its bucket; every count of the
    * role and the total go up by one. */
  function Add(b: Buckets, role: string, id: int): Buckets
    requires role in ROLES
  {
    if role == CLIENT then b.(client := b.client + [id], clientCount := b.clientCount + 1, total := b.total + 1)
    else if role == DESIGN then b.(design := b.design + [id], designCount := b.designCount + 1, total := b.total + 1)
    else b.(construction := b.construction + [id], constructionCount := b.constructionCount + 1, total := b.total + 1)
  }

  /** The live links of the project in primary-key order, each added to the
    * bucket of its role; a role outside the three raises `KeyError`, given
    * here as the role. */
  function ByRole(links: seq<Link>, project: int): (r: Result<Buckets, string>)
    ensures r.Ok? <==> RolesKnown(links, project)
    ensures r.Err? ==> r.error !in ROLES && HasLiveRole(links, project, r.error)
    ensures r.Ok? ==> Grouped(links, project, r.value)
  {
    if links == [] then Ok(EMPTY)
    else
      var front := links[..|links| - 1];
      var x := links[|links| - 1];
      var r := ByRole(front, project);
      RolesLast(links, project);
      if r.Err? then r
      else if !LiveLinkOf(project)(x) then GroupedSnoc(links, project, r.value); r
      else if x.role !in ROLES then Err(x.role)
      else GroupedSnoc(links, project, r.value); Ok(Add(r.value, x.role, |links| - 1))
  }

  /** Every live link of the project has one of the three roles. */
  predicate RolesKnown(links: seq<Link>, project: int) {
    forall i :: 0 <= i < |links| && LiveLinkOf(project)(links[i]) ==> links[i].role in ROLES
  }

  /** Some live link of the project has role `role`. */
  predicate HasLiveRole(links: seq<Link>, project: int, role: string) {
    exists i :: 0 <= i < |links| && LiveLinkOf(project)(links[i]) && links[i].role == role
  }

  /** Both role facts of a non-empty table, from those of all but its last link. */
  lemma {:induction false} RolesLast(links: seq<Link>, project: int)
    requires links != []
    ensures var front := links[..|links| - 1];
            var x := links[|links| - 1];
            (RolesKnown(links, project) <==> RolesKnown(front, project) && (LiveLinkOf(project)(x) ==> x.role in ROLES))
            && (forall role :: HasLiveRole(front, project, role) ==> HasLiveRole(links, project, role))
            && (LiveLinkOf(project)(x) ==> HasLiveRole(links, project, x.role))
  {
    var front := links[..|links| - 1];
    var x := links[|links| - 1];
    assert forall i :: 0 <= i < |front| ==> links[i] == front[i];
    forall role | HasLiveRole(front, project, role) ensures HasLiveRole(links, project, role) {
      var i :| 0 <= i < |front| && LiveLinkOf(project)(front[i]) && front[i].role == role;
      assert links[i] == front[i];
    }
  }

  /** The buckets hold the ids of the project's live links of each role in
    * primary-key order, and the counts agree with the lists and with the
    * number of live links. */
  predicate Grouped(links: seq<Link>, project: int, b: Buckets) {
    b.client == Matching(links, LiveLinkWith(project, CLIENT))
    && b.design == Matching(links, LiveLinkWith(project, DESIGN))
    && b.construction == Matching(links, LiveLinkWith(project, CONSTRUCTION))
    && b.clientCount == |b.client| && b.designCount == |b.design| && b.constructionCount == |b.construction|
    && b.total == b.clientCount + b.designCount + b.constructionCount
    && b.total == Count(links, LiveLinkOf(project))
  }

  /** One more link: a link of another project or a deleted one leaves the
    * grouping as it is; a live one with a known role joins its bucket. */
  lemma {:induction false} GroupedSnoc(links: seq<Link>, project: int, b: Buckets)
    requires links != [] && Grouped(links[..|links| - 1], project, b)
    ensures var x := links[|links| - 1];
            (!LiveLinkOf(project)(x) ==> Grouped(links, project, b))
            && (LiveLinkOf(project)(x) && x.role in ROLES ==> Grouped(links, project, Add(b, x.role, |links| - 1)))
  {
    CountLast(links, LiveLinkOf(project));
    MatchingSnoc(links, LiveLinkWith(project, CLIENT));
    MatchingSnoc(links, LiveLinkWith(project, DESIGN));
    MatchingSnoc(links, LiveLinkWith(project, CONSTRUCTION));
  }

  /** `get_company_links_by_role`: one pass over the project's live links,
    * appending each to its role's list and counting. */
  method GetCompanyLinksByRole(links: seq<Link>, project: int) returns (r: Result<Buckets, string>)
    ensures r == ByRole(links, project)
  {
    var b := EMPTY;
    var i := 0;
    while i < |links|
      invariant 0 <= i <= |links|
      invariant ByRole(links[..i], project) == Ok(b)
    {
      ByRoleStep(links, project, i, b);
      var link := links[i];
      if link.project == project && link.deletedAt.None? {
        if link.role !in ROLES {
          ByRoleFails(links, project, i + 1);
          return Err(link.role);
        }
        b := Add(b, link.role, i);
      }
      i := i + 1;
    }
    assert links[..i] == links;
    r := Ok(b);
  }

  /** One more link: the grouping of the longer prefix. */
  lemma {:induction false} ByRoleStep(links: seq<Link>, project: int, i: nat, b: Buckets)
    requires i < |links| && ByRole(links[..i], project) == Ok(b)
    ensures ByRole(links[..i + 1], project)
            == if !LiveLinkOf(project)(links[i]) then Ok(b)
               else if links[i].role !in ROLES then Err(links[i].role)
               else Ok(Add(b, links[i].role, i))
  {
    assert links[..i + 1][..i] == links[..i];
  }

  /** Once a prefix fails with a role, the whole table fails with it. */
  lemma {:induction false} ByRoleFails(links: seq<Link>, project: int, n: nat)
    requires n <= |links| && ByRole(links[..n], project).Err?
    ensures ByRole(links, project) == ByRole(links[..n], project)
    decreases |links| - n
  {
    if n < |links| {
      assert links[..n + 1][..n] == links[..n];
      ByRoleFails(links, project, n + 1);
    } else {
      assert links[..n] == links;
    }
  }

  /** Links whose roles passed `validate_role` are always grouped. */
  lemma {:induction false} ValidRolesGroup(links: seq<Link>, project: int)
    requires forall i :: 0 <= i < |links| ==> links[i].role in ROLES
    ensures ByRole(links, project).Ok?
  {
  }

  /** `ProjectCompanyLinkModelSerializer.validate_role`. */
  function ValidateRole(value: string): (r: Result<string, Rejection>)
    ensures r.Ok? <==> value == CLIENT || value == DESIGN || value == CONSTRUCTION
  {
    ValidateChoice("role", value, ROLES)
  }

  function LiveLink(): Link -> bool {
    (l: Link) => l.deletedAt.None?
  }

  function ProjectRole(l: Link): (int, string) {
    (l.project, l.role)
  }

  /** `ProjectCompanyLinkModelSerializer.validate`: with the project and a
    * non-empty role known (from the input or the stored link `self`), a
    * live link other than `self` with the same project and role rejects on
    * `role`. */
  function ValidateLink(links: seq<Link>, project: Option<int>, role: Option<string>, self: Option<int>): (r: Option<Rejection>)
    requires self.Some? ==> 0 <= self.value < |links|
    ensures var p := OrRef(project, if self.Some? then Some(links[self.value].project) else None);
            var q := OrStr(role, if self.Some? then Some(links[self.value].role) else None);
            r.Some? <==> TruthyStr(q) && p.Some? && Taken(links, LiveLink(), ProjectRole, (p.value, q.value), self)
    ensures r.Some? ==> r.value.field == "role"
  {
    var p := OrRef(project, if self.Some? then Some(links[self.value].project) else None);
    var q := OrStr(role, if self.Some? then Some(links[self.value].role) else None);
    if p.Some? && TruthyStr(q) && Taken(links, LiveLink(), ProjectRole, (p.value, q.value), self) then
      Some(Rejection("role"))
    else None
  }

  /** A link created after the check passed keeps one live link per
    * (project, role). */
  lemma {:induction false} LinkCreateKeepsUnique(links: seq<Link>, project: int, company: int, role: string)
    requires UniqueOn(links, LiveLink(), ProjectRole) && role != ""
    requires ValidateLink(links, Some(project), Some(role), None).None?
    ensures UniqueOn(links + [Link(project, company, role, None)], LiveLink(), ProjectRole)
  {
    InsertKeepsUnique(links, LiveLink(), ProjectRole, Link(project, company, role, None));
  }

  /** `ProjectModelSerializer.validate`: the dates from the input or the
    * stored project. */
  function ValidateProject(start: Option<int>, end: Option<int>, stored: Option<(Option<int>, Option<int>)>): (r: Option<Rejection>)
    ensures var s := OrRef(start, if stored.Some? then stored.value.0 else None);
            var e := OrRef(end, if stored.Some? then stored.value.1 else None);
            r.Some? <==> s.Some? && e.Some? && s.value > e.value
  {
    ValidateDateOrder(OrRef(start, if stored.Some? then stored.value.0 else None),
                      OrRef(end, if stored.Some? then stored.value.1 else None))
  }
}
