/** The checklist list: which rows it selects, in which order, and how that agrees with who may read what. */
module ListQuery {
  import opened Domain
  import opened ChecklistSpec
  import opened Query
  import opened Database

  datatype Filter = Filter(
    tenantId: int, userId: int, status: Option<Status>, excludeStatus: Option<Status>, sortBy: string, sortDir: string)

  /** The user is one of the checklist's people; the assigned group counts while it is unclaimed. */
  predicate Relevant(h: Header, user: int, members: set<(int, int)>) {
    || h.creatorId == user
    || h.approverId == Some(user)
    || h.assignedUserId == Some(user)
    || (h.assignedUserId.None? && h.assignedGroupId.Some? && (user, h.assignedGroupId.value) in members)
  }

  predicate StatusWanted(h: Header, f: Filter) {
    (f.status.Some? ==> h.status == f.status.value) && (f.excludeStatus.Some? ==> h.status != f.excludeStatus.value)
  }

  function Selected(db: Db, f: Filter): set<Header> {
    set id | id in db.checklists && db.checklists[id].tenantId == f.tenantId
             && Relevant(db.checklists[id], f.userId, db.members) &&
                  StatusWanted(db.checklists[id], f) :: db.checklists[id]
  }

  /** The status column holds text; this is its alphabetical rank. */
  function StatusRank(s: Status): int {
    match s
    case Complete => 0
    case Open => 1
    case Validating => 2
  }

  /** The sort column is taken from an allowlist; anything else means the creation time. */
  predicate ColumnLess(column: string, a: Header, b: Header) {
    if column == "name" then TextLess(a.name, b.name)
    else if column == "status" then StatusRank(a.status) < StatusRank(b.status)
    else a.createdAt < b.createdAt
  }

  predicate ColumnEqual(column: string, a: Header, b: Header) {
    if column == "name" then a.name == b.name
    else if column == "status" then a.status == b.status
    else a.createdAt == b.createdAt
  }

  predicate Ascending(column: string, a: Header, b: Header) {
    ColumnLess(column, a, b) || (ColumnEqual(column, a, b) && a.id < b.id)
  }

  /** ORDER BY column dir, id dir. */
  function Order(f: Filter): (Header, Header) -> bool {
    if f.sortDir == "asc" then (a, b) => Ascending(f.sortBy, a, b) else (a, b) => Ascending(f.sortBy, b, a)
  }

  lemma ColumnIsOrdered(column: string, a: Header, b: Header, c: Header)
    ensures !ColumnLess(column, a, a)
    ensures ColumnLess(column, a, b) || ColumnLess(column, b, a) || ColumnEqual(column, a, b)
    ensures ColumnLess(column, a, b) && ColumnLess(column, b, c) ==> ColumnLess(column, a, c)
  {
    TextIsOrdered(a.name, b.name, c.name);
  }

  lemma AscendingIsOrdered(column: string, a: Header, b: Header, c: Header)
    ensures !Ascending(column, a, a)
    ensures a.id != b.id ==> Ascending(column, a, b) || Ascending(column, b, a)
    ensures Ascending(column, a, b) && Ascending(column, b, c) ==> Ascending(column, a, c)
  {
    ColumnIsOrdered(column, a, b, c);
  }

  lemma HeadersAreOrdered(rows: set<Header>, f: Filter)
    requires forall a, b :: a in rows && b in rows && a != b ==> a.id != b.id
    ensures StrictTotalOn(Order(f), rows)
  {
    var less := Order(f);
    forall a, b, c | a in rows && b in rows && c in rows
      ensures !less(a, a)
      ensures a != b ==> less(a, b) || less(b, a)
      ensures less(a, b) && less(b, c) ==> less(a, c)
    {
      AscendingIsOrdered(f.sortBy, a, b, c);
      AscendingIsOrdered(f.sortBy, c, b, a);
    }
  }

  lemma SelectedDiffer(db: Db, f: Filter)
    requires DbOk(db)
    ensures forall a, b :: a in Selected(db, f) && b in Selected(db, f) && a != b ==> a.id != b.id
  {
  }

  function List(db: Db, f: Filter): (rows: seq<Header>)
    requires DbOk(db)
    ensures Lists(rows, Selected(db, f)) && Sorted(rows, Order(f))
  {
    SelectedDiffer(db, f);
    HeadersAreOrdered(Selected(db, f), f);
    OrderBy(Selected(db, f), Order(f))
  }

  /** What the read handler decides: membership is looked up only when it can matter. */
  predicate ShownToReader(db: Db, h: Header, user: int) {
    VisibleTo(h, user, h.hidden && h.assignedUserId.None? && h.assignedGroupId.Some? &&
        (user, h.assignedGroupId.value) in db.members)
  }

  predicate SameTenantRow(db: Db, f: Filter, id: int) {
    id in db.checklists && db.checklists[id].tenantId == f.tenantId
  }

  /**
   Without a status filter the list holds exactly those hidden checklists the read handler
   would show, and nothing it would refuse.
   */
  lemma ListAgreesWithReading(db: Db, f: Filter, id: int)
    requires DbOk(db) && SameTenantRow(db, f, id) && f.status.None? && f.excludeStatus.None?
    ensures db.checklists[id].hidden ==> (db.checklists[id] in List(db, f) <==>
            ShownToReader(db, db.checklists[id], f.userId))
    ensures db.checklists[id] in List(db, f) ==> ShownToReader(db, db.checklists[id], f.userId)
  {
    var h := db.checklists[id];
    assert h in Selected(db, f) <==> Relevant(h, f.userId, db.members);
  }

  function Wanted(rows: seq<Header>, f: Filter): (r: seq<Header>)
    ensures forall x :: x in r <==> x in rows && StatusWanted(x, f)
  {
    if |rows| == 0 then []
    else Wanted(rows[..|rows| - 1], f) + if StatusWanted(rows[|rows| - 1], f) then [rows[|rows| - 1]] else []
  }

  lemma {:induction false} WantedStaysSorted(rows: seq<Header>, f: Filter, less: (Header, Header) -> bool)
    requires Sorted(rows, less)
    ensures Sorted(Wanted(rows, f), less)
  {
    if |rows| == 0 {
    } else {
      var n := |rows| - 1;
      var front := Wanted(rows[..n], f);
      WantedStaysSorted(rows[..n], f, less);
      forall i | 0 <= i < |front|
        ensures less(front[i], rows[n])
      {
        assert front[i] in front;
        var k :| 0 <= k < n && rows[k] == front[i];
      }
    }
  }

  /** Status filters strike rows from the list and leave the rest in place. */
  lemma StatusFiltersOnlyRemove(db: Db, f: Filter)
    requires DbOk(db)
    ensures List(db, f) == Wanted(List(db, f.(status := None, excludeStatus := None)), f)
  {
    var all := f.(status := None, excludeStatus := None);
    var rows := Wanted(List(db, all), f);
    WantedStaysSorted(List(db, all), f, Order(all));
    SelectedDiffer(db, f);
    HeadersAreOrdered(Selected(db, f), f);
    SelectedWanted(db, f);
    assert Sorted(rows, Order(f)) by {
      assert forall a, b :: Order(all)(a, b) == Order(f)(a, b);
    }
    OrderByIsUnique(List(db, f), rows, Selected(db, f), Order(f));
  }

  lemma SelectedWanted(db: Db, f: Filter)
    ensures var all := Selected(db, f.(status := None, excludeStatus := None));
            forall h :: h in Selected(db, f) <==> h in all && StatusWanted(h, f)
  {
  }

  // ---- What the list means ----

  /** Creator, approver or holder; or, while nobody holds it, a member of its group. */
  predicate Concerns(h: Header, user: int, members: set<(int, int)>) {
    || h.creatorId == user || h.approverId == Some(user) || h.assignedUserId == Some(user)
    || (h.assignedUserId == None && h.assignedGroupId.Some? && (user, h.assignedGroupId.value) in members)
  }

  /** Listed are exactly the user's rows in the tenant that have the status asked for and not the excluded one. */
  lemma ListedExactly(db: Db, f: Filter, h: Header)
    requires DbOk(db)
    ensures h in List(db, f) <==>
              && h.id in db.checklists && db.checklists[h.id] == h && h.tenantId == f.tenantId
              && Concerns(h, f.userId, db.members)
              && (f.status == None || f.status == Some(h.status))
              && f.excludeStatus != Some(h.status)
  {
    assert h in List(db, f) <==> h in Selected(db, f);
    if h in Selected(db, f) {
      var id :| id in db.checklists && db.checklists[id] == h;
      assert id == h.id;
    }
  }

  /** So of the unfiltered list exactly the rows with the status given, and without the excluded one, remain. */
  lemma FilteredByStatus(db: Db, f: Filter, h: Header)
    requires DbOk(db)
    ensures h in List(db, f) <==>
              && h in List(db, f.(status := None, excludeStatus := None))
              && (f.status.Some? ==> h.status == f.status.value)
              && (f.excludeStatus.Some? ==> h.status != f.excludeStatus.value)
  {
    ListedExactly(db, f, h);
    ListedExactly(db, f.(status := None, excludeStatus := None), h);
  }

  /** What the status column holds. */
  function StatusText(s: Status): string {
    match s
    case Open => "open"
    case Validating => "validating"
    case Complete => "complete"
  }

  lemma RankIsAlphabetical(a: Status, b: Status)
    ensures StatusRank(a) < StatusRank(b) <==> Precedes(StatusText(a), StatusText(b))
  {
    TextLessExactly(StatusText(a), StatusText(b));
    assert TextLess("complete", "open") && TextLess("complete", "validating") && TextLess("open", "validating");
    assert !TextLess("open", "complete") && !TextLess("validating", "complete") && !TextLess("validating", "open");
    assert !TextLess("open", "open") && !TextLess("complete", "complete") && !TextLess("validating", "validating");
  }

  /** In the order asked for, a comes before b: by the column, and where that is equal by the id. */
  ghost predicate InOrder(column: string, a: Header, b: Header) {
    match column
    case "name" => if a.name == b.name then a.id < b.id else Precedes(a.name, b.name)
    case "status" => if a.status == b.status then a.id < b.id else Precedes(StatusText(a.status), StatusText(b.status))
    case _ => if a.createdAt == b.createdAt then a.id < b.id else a.createdAt < b.createdAt
  }

  /** Rows ascend as asked for with "asc" and descend with anything else; an unknown column means the creation time. */
  lemma ListedInOrder(db: Db, f: Filter, i: int, j: int)
    requires DbOk(db) && 0 <= i < j < |List(db, f)|
    ensures if f.sortDir == "asc" then InOrder(f.sortBy, List(db, f)[i], List(db, f)[j])
            else InOrder(f.sortBy, List(db, f)[j], List(db, f)[i])
  {
    var a, b := List(db, f)[i], List(db, f)[j];
    assert Order(f)(a, b);
    var low, high := if f.sortDir == "asc" then a else b, if f.sortDir == "asc" then b else a;
    assert Ascending(f.sortBy, low, high);
    TextLessExactly(low.name, high.name);
    TextIsOrdered(low.name, high.name, low.name);
    RankIsAlphabetical(low.status, high.status);
  }

  // ---- Who may read ----

  /** The read handler shows a checklist exactly to those it concerns, and to everyone unless it is hidden. */
  lemma ShownExactly(db: Db, h: Header, user: int)
    ensures ShownToReader(db, h, user) <==> !h.hidden || Concerns(h, user, db.members)
  {
  }

  /** Winning a claim takes a hidden checklist out of its group's sight: its people alone still see it. */
  lemma ClaimHidesFromGroup(db: Db, tenant: int, id: int, user: int, expected: Option<int>, reader: int)
    requires Claim(db, tenant, id, user, expected).1 == Ok(true) && db.checklists[id].hidden
    ensures var db' := Claim(db, tenant, id, user, expected).0;
            && id in db'.checklists
            && (ShownToReader(db', db'.checklists[id], reader) <==>
                 || reader == user
                 || db.checklists[id].creatorId == reader || db.checklists[id].approverId == Some(reader))
  {
  }
}
