/** The store numbers versions without gaps, and the page's index by name agrees with the store. */
module TemplateIndex {
  import opened Domain
  import opened Query
  import opened Templates

  /** How many of the first k templates have this tenant and name. */
  function CountNamed(ts: seq<Template>, k: nat, tenant: int, name: string): (n: nat)
    requires k <= |ts|
  {
    if k == 0 then 0 else CountNamed(ts, k - 1, tenant, name) + if Named(ts[k - 1], tenant, name) then 1 else 0
  }

  /** Each template is numbered by its place among those of its tenant and name. */
  ghost predicate Numbered(ts: seq<Template>) {
    forall k :: 0 <= k < |ts| ==> ts[k].version == 1 + CountNamed(ts, k, ts[k].tenantId, ts[k].name)
  }

  datatype Creation = Creation(id: int, tenantId: int, name: string)

  /** The table after creating versions one after the other. */
  function AfterCreations(creations: seq<Creation>): (ts: seq<Template>)
    ensures |ts| == |creations|
  {
    if |creations| == 0 then []
    else
      var ts := AfterCreations(creations[..|creations| - 1]);
      var c := creations[|creations| - 1];
      ts + [Template(c.id, c.tenantId, c.name, NextVersion(ts, c.tenantId, c.name))]
  }

  lemma {:induction false} CountOfPrefix(a: seq<Template>, b: seq<Template>, k: nat, tenant: int, name: string)
    requires k <= |a| && a <= b
    ensures CountNamed(a, k, tenant, name) == CountNamed(b, k, tenant, name)
  {
    if k > 0 {
      CountOfPrefix(a, b, k - 1, tenant, name);
    }
  }

  lemma {:induction false} CountGrows(ts: seq<Template>, j: nat, k: nat, tenant: int, name: string)
    requires j <= k <= |ts|
    ensures CountNamed(ts, j, tenant, name) <= CountNamed(ts, k, tenant, name)
  {
    if j < k {
      CountGrows(ts, j, k - 1, tenant, name);
    }
  }

  lemma PrefixIsNumbered(ts: seq<Template>, n: nat)
    requires Numbered(ts) && n <= |ts|
    ensures Numbered(ts[..n])
  {
    forall k | 0 <= k < n
      ensures ts[..n][k].version == 1 + CountNamed(ts[..n], k, ts[k].tenantId, ts[k].name)
    {
      CountOfPrefix(ts[..n], ts, k, ts[k].tenantId, ts[k].name);
    }
  }

  /** In a numbered table the latest version is the number of versions. */
  lemma {:induction false} LatestIsCount(ts: seq<Template>, tenant: int, name: string)
    requires Numbered(ts)
    ensures CountNamed(ts, |ts|, tenant, name) == NextVersion(ts, tenant, name) - 1
  {
    if |ts| == 0 {
    } else {
      var n := |ts| - 1;
      PrefixIsNumbered(ts, n);
      LatestIsCount(ts[..n], tenant, name);
      CountOfPrefix(ts[..n], ts, n, tenant, name);
    }
  }

  lemma {:induction false} EachVersionExists(ts: seq<Template>, n: nat, tenant: int, name: string, v: int)
    requires Numbered(ts) && n <= |ts| && 1 <= v <= CountNamed(ts, n, tenant, name)
    ensures HasVersion(ts, tenant, name, v)
  {
    if v <= CountNamed(ts, n - 1, tenant, name) {
      EachVersionExists(ts, n - 1, tenant, name, v);
    } else {
      assert Named(ts[n - 1], tenant, name) && ts[n - 1].version == v;
    }
  }

  ghost predicate HasVersion(ts: seq<Template>, tenant: int, name: string, v: int) {
    exists k :: 0 <= k < |ts| && Named(ts[k], tenant, name) && ts[k].version == v
  }

  /** No two templates share tenant, name and version. */
  lemma VersionsAreUnique(ts: seq<Template>, j: int, k: int)
    requires Numbered(ts) && 0 <= j < k < |ts| && Named(ts[k], ts[j].tenantId, ts[j].name)
    ensures ts[j].version < ts[k].version
  {
    CountGrows(ts, j + 1, k, ts[j].tenantId, ts[j].name);
  }

  lemma StaysNumbered(front: seq<Template>, t: Template, k: nat)
    requires Numbered(front) && k < |front|
    ensures var ts := front + [t]; ts[k].version == 1 + CountNamed(ts, k, ts[k].tenantId, ts[k].name)
  {
    CountOfPrefix(front, front + [t], k, front[k].tenantId, front[k].name);
  }

  lemma NewIsNumbered(front: seq<Template>, t: Template)
    requires Numbered(front) && t.version == NextVersion(front, t.tenantId, t.name)
    ensures t.version == 1 + CountNamed(front + [t], |front|, t.tenantId, t.name)
  {
    LatestIsCount(front, t.tenantId, t.name);
    CountOfPrefix(front, front + [t], |front|, t.tenantId, t.name);
  }

  lemma NextIsNumbered(front: seq<Template>, t: Template)
    requires Numbered(front) && t.version == NextVersion(front, t.tenantId, t.name)
    ensures Numbered(front + [t])
  {
    var ts := front + [t];
    forall k | 0 <= k < |ts|
      ensures ts[k].version == 1 + CountNamed(ts, k, ts[k].tenantId, ts[k].name)
    {
      if k < |front| {
        StaysNumbered(front, t, k);
      } else {
        NewIsNumbered(front, t);
      }
    }
  }

  lemma {:induction false} CreationsAreNumbered(creations: seq<Creation>)
    ensures Numbered(AfterCreations(creations))
  {
    if |creations| == 0 {
    } else {
      var n := |creations| - 1;
      var c := creations[n];
      var front := AfterCreations(creations[..n]);
      CreationsAreNumbered(creations[..n]);
      NextIsNumbered(front, Template(c.id, c.tenantId, c.name, NextVersion(front, c.tenantId, c.name)));
    }
  }

  lemma VersionIsCounted(ts: seq<Template>, tenant: int, name: string, v: int)
    requires Numbered(ts)
    ensures HasVersion(ts, tenant, name, v) <==> 1 <= v <= CountNamed(ts, |ts|, tenant, name)
  {
    if 1 <= v <= CountNamed(ts, |ts|, tenant, name) {
      EachVersionExists(ts, |ts|, tenant, name, v);
    }
    if HasVersion(ts, tenant, name, v) {
      var k :| 0 <= k < |ts| && Named(ts[k], tenant, name) && ts[k].version == v;
      CountGrows(ts, k + 1, |ts|, tenant, name);
    }
  }

  /** After any run of creations the versions of a tenant and name are exactly 1 to their number, each once. */
  lemma VersionsAreContiguous(creations: seq<Creation>, tenant: int, name: string, v: int)
    ensures var ts := AfterCreations(creations);
            && (HasVersion(ts, tenant, name, v) <==> 1 <= v <= CountNamed(ts, |ts|, tenant, name))
            && (forall j, k :: 0 <= j < k < |ts| && Named(ts[j], tenant, name) && Named(ts[k], tenant, name) ==>
                 ts[j].version != ts[k].version)
  {
    var ts := AfterCreations(creations);
    CreationsAreNumbered(creations);
    VersionIsCounted(ts, tenant, name, v);
    forall j, k | 0 <= j < k < |ts| && Named(ts[j], tenant, name) && Named(ts[k], tenant, name)
      ensures ts[j].version != ts[k].version
    {
      VersionsAreUnique(ts, j, k);
    }
  }

  // ---- ORDER BY name, version ----

  predicate TemplateLess(a: Template, b: Template) {
    TextLess(a.name, b.name) || (a.name == b.name && a.version < b.version)
  }

  function OfTenant(ts: seq<Template>, tenant: int): set<Template> {
    set t | t in ts && t.tenantId == tenant
  }

  lemma TemplatesAreOrdered(ts: seq<Template>, tenant: int)
    requires Numbered(ts)
    ensures StrictTotalOn(TemplateLess, OfTenant(ts, tenant))
  {
    forall a, b, c | a in OfTenant(ts, tenant) && b in OfTenant(ts, tenant) && c in OfTenant(ts, tenant)
      ensures !TemplateLess(a, a)
      ensures a != b ==> TemplateLess(a, b) || TemplateLess(b, a)
      ensures TemplateLess(a, b) && TemplateLess(b, c) ==> TemplateLess(a, c)
    {
      TextIsOrdered(a.name, b.name, c.name);
      if a != b && a.name == b.name {
        DifferentVersions(ts, a, b);
      }
    }
  }

  lemma DifferentVersions(ts: seq<Template>, a: Template, b: Template)
    requires Numbered(ts) && a in ts && b in ts && a != b && Named(b, a.tenantId, a.name)
    ensures a.version != b.version
  {
    var j :| 0 <= j < |ts| && ts[j] == a;
    var k :| 0 <= k < |ts| && ts[k] == b;
    if j < k { VersionsAreUnique(ts, j, k); } else { VersionsAreUnique(ts, k, j); }
  }

  function ListTemplates(ts: seq<Template>, tenant: int): (list: seq<Template>)
    requires Numbered(ts)
    ensures Lists(list, OfTenant(ts, tenant)) && Sorted(list, TemplateLess)
  {
    TemplatesAreOrdered(ts, tenant);
    OrderBy(OfTenant(ts, tenant), TemplateLess)
  }

  // ---- The index ----

  function Concat(groups: seq<Group>): seq<Template> {
    if |groups| == 0 then [] else Concat(groups[..|groups| - 1]) + groups[|groups| - 1].versions
  }

  lemma NamesInOrder(list: seq<Template>, j: int, k: int)
    requires Sorted(list, TemplateLess) && 0 <= j < k < |list|
    ensures list[j].name == list[k].name || TextLess(list[j].name, list[k].name)
  {
    assert TemplateLess(list[j], list[k]);
  }

  /** In a sorted list equal names stand together. */
  lemma SameNameIsNext(list: seq<Template>, k: int)
    requires Sorted(list, TemplateLess) && 0 <= k < |list| - 1 && list[k].name == list[|list| - 1].name
    ensures list[|list| - 2].name == list[|list| - 1].name
  {
    var n := |list| - 1;
    if k < n - 1 {
      NamesInOrder(list, k, n - 1);
      NamesInOrder(list, n - 1, n);
      TextIsOrdered(list[n].name, list[n - 1].name, list[n].name);
    }
  }

  lemma NewestName(front: seq<Template>, t: Template)
    requires Sorted(front + [t], TemplateLess) && t.name in FirstNames(front)
    ensures |front| > 0 && front[|front| - 1].name == t.name
  {
    var g :| 0 <= g < |FirstNames(front)| && FirstNames(front)[g] == t.name;
    var k := NameFrom(front, g);
    SameNameIsNext(front + [t], k);
  }

  /** In a sorted list a known name is the last one that appeared. */
  lemma {:induction false} KnownNameIsLast(list: seq<Template>)
    requires Sorted(list, TemplateLess) && |list| > 0
    ensures |FirstNames(list)| > 0 && FirstNames(list)[|FirstNames(list)| - 1] == list[|list| - 1].name
  {
    var n := |list| - 1;
    var front, t := list[..n], list[n];
    assert list == front + [t];
    NamesOneMore(front, t);
    if t.name in FirstNames(front) {
      NewestName(front, t);
      KnownNameIsLast(front);
    }
  }

  lemma ConcatJoin(groups: seq<Group>, t: Template)
    requires |groups| > 0
    ensures var g := |groups| - 1;
            Concat(groups[g := Group(t, groups[g].versions + [t])]) == Concat(groups) + [t]
  {
    var g := |groups| - 1;
    assert groups[g := Group(t, groups[g].versions + [t])][..g] == groups[..g];
  }

  lemma ConcatStart(groups: seq<Group>, t: Template)
    ensures Concat(groups + [Group(t, [t])]) == Concat(groups) + [t]
  {
    assert (groups + [Group(t, [t])])[..|groups|] == groups;
  }

  lemma GroupsOneMore(front: seq<Template>, t: Template)
    requires Sorted(front + [t], TemplateLess)
    ensures Concat(GroupsOf(front + [t])) == Concat(GroupsOf(front)) + [t]
  {
    if t.name in FirstNames(front) {
      KnownNameIsLast(front + [t]);
      NamesOneMore(front, t);
      Joins(front, t, |GroupsOf(front)| - 1);
      ConcatJoin(GroupsOf(front), t);
    } else {
      Starts(front, t);
      ConcatStart(GroupsOf(front), t);
    }
  }

  /** The groups' versions, one group after the other, are the whole list. */
  lemma {:induction false} GroupsPartitionTheList(list: seq<Template>)
    requires Sorted(list, TemplateLess)
    ensures Concat(GroupsOf(list)) == list
  {
    if |list| == 0 {
    } else {
      var n := |list| - 1;
      assert list == list[..n] + [list[n]];
      GroupsPartitionTheList(list[..n]);
      GroupsOneMore(list[..n], list[n]);
    }
  }

  lemma LastIsLatest(list: seq<Template>, k: int)
    requires Sorted(list, TemplateLess) && 0 <= k < |list| && list[k].name == list[|list| - 1].name
    ensures list[k].version <= list[|list| - 1].version
  {
    if k < |list| - 1 {
      assert TemplateLess(list[k], list[|list| - 1]);
      TextIsOrdered(list[k].name, list[k].name, list[k].name);
    }
  }

  lemma {:induction false} LastOfNameIsLatest(list: seq<Template>, name: string, k: int)
    requires Sorted(list, TemplateLess) && 0 <= k < |list| && list[k].name == name
    ensures var r := OfName(list, name); |r| > 0 && list[k].version <= r[|r| - 1].version
  {
    var n := |list| - 1;
    if list[n].name == name {
      LastIsLatest(list, k);
    } else {
      LastOfNameIsLatest(list[..n], name, k);
    }
  }

  /**
   After any run of creations: grouping a tenant's list gives one group per name, the groups
   make up the list, and each group's latest is what the store returns as the latest.
   */
  lemma IndexAgreesWithStore(creations: seq<Creation>, tenant: int)
    ensures var ts := AfterCreations(creations);
            && Numbered(ts)
            && var list := ListTemplates(ts, tenant);
            var groups := GroupsOf(list);
            && Concat(groups) == list
            && (forall g, h :: 0 <= g < h < |groups| ==> groups[g].latest.name != groups[h].latest.name)
            && (forall g :: 0 <= g < |groups| ==> Latest(ts, tenant, groups[g].latest.name) == Some(groups[g].latest))
            && (forall name :: Latest(ts, tenant, name).Some? ==>
                 exists g :: 0 <= g < |groups| && groups[g].latest.name == name)
  {
    var ts := AfterCreations(creations);
    CreationsAreNumbered(creations);
    var list := ListTemplates(ts, tenant);
    GroupsPartitionTheList(list);
    var groups := GroupsOf(list);
    forall g | 0 <= g < |groups|
      ensures groups[g].latest.name == FirstNames(list)[g]
      ensures Latest(ts, tenant, groups[g].latest.name) == Some(groups[g].latest)
    {
      GroupLatestIsStoreLatest(ts, tenant, g);
    }
    forall g, h | 0 <= g < h < |groups|
      ensures groups[g].latest.name != groups[h].latest.name
    {
      NamesDiffer(list, g, h);
    }
    forall name | Latest(ts, tenant, name).Some?
      ensures exists g :: 0 <= g < |groups| && groups[g].latest.name == name
    {
      var g := GroupOfStoredName(ts, tenant, name);
      assert groups[g].latest.name == name;
    }
  }

  /** The list the index is built from: names in their order, versions of one name in the order of their numbers. */
  lemma ListIsInOrder(ts: seq<Template>, tenant: int, i: int, j: int)
    requires Numbered(ts) && 0 <= i < j < |ListTemplates(ts, tenant)|
    ensures var a, b := ListTemplates(ts, tenant)[i], ListTemplates(ts, tenant)[j];
            if a.name == b.name then a.version < b.version else Precedes(a.name, b.name)
  {
    var a, b := ListTemplates(ts, tenant)[i], ListTemplates(ts, tenant)[j];
    assert TemplateLess(a, b);
    TextLessExactly(a.name, b.name);
    TextIsOrdered(a.name, a.name, a.name);
  }

  lemma GroupOfStoredName(ts: seq<Template>, tenant: int, name: string) returns (g: int)
    requires Numbered(ts) && Latest(ts, tenant, name).Some?
    ensures 0 <= g < |FirstNames(ListTemplates(ts, tenant))| && FirstNames(ListTemplates(ts, tenant))[g] == name
  {
    var k := StoredIsListed(ts, tenant, Latest(ts, tenant, name).value);
    g := NameListed(ListTemplates(ts, tenant), k);
  }

  /** The last template of a name in the sorted list is the store's latest. */
  lemma LastOfNameIsStored(ts: seq<Template>, tenant: int, name: string, mine: Template)
    requires Numbered(ts) && Named(mine, tenant, name) && mine in ts
    requires forall t :: t in ts && Named(t, tenant, name) ==> t.version <= mine.version
    ensures Latest(ts, tenant, name) == Some(mine)
  {
    var k :| 0 <= k < |ts| && ts[k] == mine;
    var latest := Latest(ts, tenant, name).value;
    if latest != mine {
      DifferentVersions(ts, latest, mine);
    }
  }

  lemma StoredIsListed(ts: seq<Template>, tenant: int, t: Template) returns (k: int)
    requires Numbered(ts) && t in ts && t.tenantId == tenant
    ensures var list := ListTemplates(ts, tenant); 0 <= k < |list| && list[k] == t
  {
    assert t in OfTenant(ts, tenant);
    assert t in ListTemplates(ts, tenant);
    k :| 0 <= k < |ListTemplates(ts, tenant)| && ListTemplates(ts, tenant)[k] == t;
  }

  lemma ListedIsStored(ts: seq<Template>, tenant: int, t: Template)
    requires Numbered(ts) && t in ListTemplates(ts, tenant)
    ensures t in ts && t.tenantId == tenant
  {
    assert t in OfTenant(ts, tenant);
  }

  lemma ListedIsLatest(ts: seq<Template>, tenant: int, name: string)
    requires Numbered(ts) && |OfName(ListTemplates(ts, tenant), name)| > 0
    ensures var r := OfName(ListTemplates(ts, tenant), name); Latest(ts, tenant, name) == Some(r[|r| - 1])
  {
    var list := ListTemplates(ts, tenant);
    var r := OfName(list, name);
    var mine := r[|r| - 1];
    var last := OfNameFrom(list, name, |r| - 1);
    ListedIsStored(ts, tenant, mine);
    forall t | t in ts && Named(t, tenant, name)
      ensures t.version <= mine.version
    {
      var k := StoredIsListed(ts, tenant, t);
      LastOfNameIsLatest(list, name, k);
    }
    LastOfNameIsStored(ts, tenant, name, mine);
  }

  lemma GroupLatestIsStoreLatest(ts: seq<Template>, tenant: int, g: int)
    requires Numbered(ts) && 0 <= g < |FirstNames(ListTemplates(ts, tenant))|
    ensures var list := ListTemplates(ts, tenant);
            && GroupsOf(list)[g].latest.name == FirstNames(list)[g]
            && Latest(ts, tenant, FirstNames(list)[g]) == Some(GroupsOf(list)[g].latest)
  {
    var list := ListTemplates(ts, tenant);
    GroupAt(list, g);
    ListedIsLatest(ts, tenant, FirstNames(list)[g]);
  }
}
