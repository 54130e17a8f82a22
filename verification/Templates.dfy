/** Versioned templates: numbering, listing, and the page's index of the list by name. */
module Templates {
  import opened Domain

  datatype Template = Template(id: int, tenantId: int, name: string, version: int)
  datatype TemplateItem = TemplateItem(id: int, templateId: int, name: string, position: int, validationRef: string)

  predicate Named(t: Template, tenant: int, name: string) {
    t.tenantId == tenant && t.name == name
  }

  /** SELECT ... WHERE tenant and name ORDER BY version DESC LIMIT 1. */
  function Latest(ts: seq<Template>, tenant: int, name: string): (r: Option<Template>)
    ensures r.None? <==> forall k :: 0 <= k < |ts| ==> !Named(ts[k], tenant, name)
    ensures r.Some? ==> r.value in ts && Named(r.value, tenant, name)
    ensures r.Some? ==> forall k :: 0 <= k < |ts| && Named(ts[k], tenant, name) ==> ts[k].version <= r.value.version
  {
    if |ts| == 0 then None
    else
      var last := ts[|ts| - 1];
      var r := Latest(ts[..|ts| - 1], tenant, name);
      if Named(last, tenant, name) && (r.None? || r.value.version < last.version) then Some(last) else r
  }

  function NextVersion(ts: seq<Template>, tenant: int, name: string): int {
    var latest := Latest(ts, tenant, name);
    if latest.Some? then latest.value.version + 1 else 1
  }

  function NumberItems(items: seq<TemplateItem>, templateId: int, next: int): (r: seq<TemplateItem>)
    ensures |r| == |items|
  {
    seq(|items|, k requires 0 <= k < |items| => items[k].(id := next + k, templateId := templateId, position := k))
  }

  /** A version's lines are stored with their texts, in the order given, numbered from 0, under ids of their own. */
  lemma NumberedItems(items: seq<TemplateItem>, templateId: int, next: int)
    ensures var saved := NumberItems(items, templateId, next);
            forall k :: 0 <= k < |items| ==>
              && saved[k].name == items[k].name && saved[k].validationRef == items[k].validationRef
              && saved[k].position == k && saved[k].templateId == templateId
              && next <= saved[k].id < next + |items| && forall j :: 0 <= j < k ==> saved[j].id != saved[k].id
  {
  }

  class TemplateRepo {
    var templates: seq<Template>       // in insertion order
    var items: seq<TemplateItem>
    var nextTemplate: int
    var nextItem: int

    constructor ()
      ensures templates == [] && items == [] && nextTemplate == 1 && nextItem == 1
    {
      templates, items, nextTemplate, nextItem := [], [], 1, 1;
    }

    /** Inserts the next version of the name; whatever version the caller had in mind is overwritten. */
    method CreateVersion(tenantId: int, name: string, given: seq<TemplateItem>)
      returns (t: Template, saved: seq<TemplateItem>)
      modifies this
      ensures t == Template(old(nextTemplate), tenantId, name, NextVersion(old(templates), tenantId, name))
      ensures templates == old(templates) + [t] && nextTemplate == old(nextTemplate) + 1
      ensures saved == NumberItems(given, t.id, old(nextItem))
      ensures items == old(items) + saved && nextItem == old(nextItem) + |given|
    {
      var latest := Latest(templates, tenantId, name);
      var version := 1;
      if latest.Some? {
        version := latest.value.version + 1;
      }
      t := Template(nextTemplate, tenantId, name, version);
      templates, nextTemplate := templates + [t], nextTemplate + 1;
      saved := [];
      for i := 0 to |given|
        invariant nextItem == old(nextItem) + i
        invariant saved == NumberItems(given, t.id, old(nextItem))[..i]
        invariant items == old(items) + saved
        invariant templates == old(templates) + [t] && nextTemplate == old(nextTemplate) + 1
      {
        var item := given[i].(templateId := t.id, position := i);
        item := item.(id := nextItem);
        nextItem := nextItem + 1;
        saved := saved + [item];
        items := items + [item];
      }
    }
  }

  // ---- The page's index ----

  datatype Group = Group(latest: Template, versions: seq<Template>)

  function OfName(list: seq<Template>, name: string): seq<Template> {
    if |list| == 0 then []
    else OfName(list[..|list| - 1], name) + if list[|list| - 1].name == name then [list[|list| - 1]] else []
  }

  lemma {:induction false} OfNameFrom(list: seq<Template>, name: string, i: int) returns (k: int)
    requires 0 <= i < |OfName(list, name)|
    ensures 0 <= k < |list| && list[k] == OfName(list, name)[i] && list[k].name == name
  {
    var n := |list| - 1;
    if i < |OfName(list[..n], name)| {
      k := OfNameFrom(list[..n], name, i);
    } else {
      k := n;
    }
  }

  lemma {:induction false} OfNameHas(list: seq<Template>, name: string, k: int)
    requires 0 <= k < |list| && list[k].name == name
    ensures |OfName(list, name)| > 0
  {
    if k < |list| - 1 {
      OfNameHas(list[..|list| - 1], name, k);
    }
  }

  /** The names in the order in which they first appear. */
  function FirstNames(list: seq<Template>): seq<string> {
    if |list| == 0 then []
    else
      var names := FirstNames(list[..|list| - 1]);
      if list[|list| - 1].name in names then names else names + [list[|list| - 1].name]
  }

  lemma {:induction false} NameFrom(list: seq<Template>, g: int) returns (k: int)
    requires 0 <= g < |FirstNames(list)|
    ensures 0 <= k < |list| && list[k].name == FirstNames(list)[g]
  {
    var n := |list| - 1;
    if g < |FirstNames(list[..n])| {
      k := NameFrom(list[..n], g);
    } else {
      k := n;
    }
  }

  lemma {:induction false} NameListed(list: seq<Template>, k: int) returns (g: int)
    requires 0 <= k < |list|
    ensures 0 <= g < |FirstNames(list)| && FirstNames(list)[g] == list[k].name
  {
    var n := |list| - 1;
    var names := FirstNames(list[..n]);
    if k < n {
      g := NameListed(list[..n], k);
    } else if list[n].name in names {
      g :| 0 <= g < |names| && names[g] == list[n].name;
    } else {
      g := |names|;
    }
  }

  lemma {:induction false} NamesDiffer(list: seq<Template>, g: int, h: int)
    requires 0 <= g < h < |FirstNames(list)|
    ensures FirstNames(list)[g] != FirstNames(list)[h]
  {
    var names := FirstNames(list[..|list| - 1]);
    if h < |names| {
      NamesDiffer(list[..|list| - 1], g, h);
    } else {
      assert names[g] in names;
    }
  }

  lemma NameIsThere(list: seq<Template>, g: int)
    requires 0 <= g < |FirstNames(list)|
    ensures |OfName(list, FirstNames(list)[g])| > 0
  {
    var k := NameFrom(list, g);
    OfNameHas(list, FirstNames(list)[g], k);
  }

  /** One group per name: all its templates in list order, and the last of them. */
  function GroupFor(list: seq<Template>, name: string): Group
    requires |OfName(list, name)| > 0
  {
    var versions := OfName(list, name);
    Group(versions[|versions| - 1], versions)
  }

  function GroupsOf(list: seq<Template>): (r: seq<Group>)
    ensures |r| == |FirstNames(list)|
  {
    seq(|FirstNames(list)|, g requires 0 <= g < |FirstNames(list)| =>
      NameIsThere(list, g);
      GroupFor(list, FirstNames(list)[g]))
  }

  lemma NoneOfNewName(list: seq<Template>, name: string)
    requires name !in FirstNames(list)
    ensures OfName(list, name) == []
  {
    if OfName(list, name) != [] {
      var k := OfNameFrom(list, name, 0);
      var g := NameListed(list, k);
    }
  }

  lemma OfNameOneMore(front: seq<Template>, t: Template, name: string)
    ensures OfName(front + [t], name) == OfName(front, name) + if t.name == name then [t] else []
  {
    assert (front + [t])[..|front|] == front;
  }

  lemma NamesOneMore(front: seq<Template>, t: Template)
    ensures FirstNames(front + [t]) ==
            if t.name in FirstNames(front) then FirstNames(front) else FirstNames(front) + [t.name]
  {
    assert (front + [t])[..|front|] == front;
  }

  lemma GroupForOneMore(front: seq<Template>, t: Template, name: string)
    requires |OfName(front, name)| > 0
    ensures |OfName(front + [t], name)| > 0
    ensures GroupFor(front + [t], name) ==
            if name == t.name then Group(t, GroupFor(front, name).versions + [t]) else GroupFor(front, name)
  {
    OfNameOneMore(front, t, name);
  }

  lemma GroupAt(list: seq<Template>, g: int)
    requires 0 <= g < |FirstNames(list)|
    ensures |OfName(list, FirstNames(list)[g])| > 0
    ensures GroupsOf(list)[g] == GroupFor(list, FirstNames(list)[g])
  {
    NameIsThere(list, g);
  }

  lemma OldGroup(front: seq<Template>, t: Template, g: int)
    requires 0 <= g < |FirstNames(front)|
    ensures g < |GroupsOf(front + [t])|
    ensures GroupsOf(front + [t])[g] ==
            if FirstNames(front)[g] == t.name then Group(t, GroupsOf(front)[g].versions + [t]) else GroupsOf(front)[g]
  {
    NamesOneMore(front, t);
    GroupAt(front, g);
    GroupAt(front + [t], g);
    GroupForOneMore(front, t, FirstNames(front)[g]);
  }

  /** A template of a known name joins its group as the latest; the other groups stay. */
  lemma Joins(front: seq<Template>, t: Template, g: int)
    requires 0 <= g < |FirstNames(front)| && FirstNames(front)[g] == t.name
    ensures GroupsOf(front + [t]) == GroupsOf(front)[g := Group(t, GroupsOf(front)[g].versions + [t])]
  {
    var before, after := GroupsOf(front), GroupsOf(front + [t]);
    assert t.name in FirstNames(front);
    NamesOneMore(front, t);
    forall k | 0 <= k < |before|
      ensures after[k] == if k == g then Group(t, before[g].versions + [t]) else before[k]
    {
      OldGroup(front, t, k);
      if k < g { NamesDiffer(front, k, g); }
      if g < k { NamesDiffer(front, g, k); }
    }
  }

  lemma NewGroup(front: seq<Template>, t: Template)
    requires t.name !in FirstNames(front)
    ensures |GroupsOf(front + [t])| == |GroupsOf(front)| + 1
    ensures GroupsOf(front + [t])[|GroupsOf(front)|] == Group(t, [t])
  {
    NamesOneMore(front, t);
    NoneOfNewName(front, t.name);
    OfNameOneMore(front, t, t.name);
  }

  lemma OldGroupsStay(front: seq<Template>, t: Template)
    requires t.name !in FirstNames(front)
    ensures |GroupsOf(front)| <= |GroupsOf(front + [t])|
    ensures GroupsOf(front + [t])[..|GroupsOf(front)|] == GroupsOf(front)
  {
    NamesOneMore(front, t);
    forall k | 0 <= k < |GroupsOf(front)|
      ensures GroupsOf(front + [t])[k] == GroupsOf(front)[k]
    {
      OldGroup(front, t, k);
      assert FirstNames(front)[k] in FirstNames(front);
    }
  }

  /** A template of a new name starts a group of its own at the end. */
  lemma Starts(front: seq<Template>, t: Template)
    requires t.name !in FirstNames(front)
    ensures GroupsOf(front + [t]) == GroupsOf(front) + [Group(t, [t])]
  {
    NewGroup(front, t);
    OldGroupsStay(front, t);
    var after := GroupsOf(front + [t]);
    assert after == after[..|after| - 1] + [after[|after| - 1]];
  }

  /** The map names each group's place in the list of groups. */
  ghost predicate Indexes(byName: map<string, nat>, names: seq<string>) {
    && (forall name :: name in byName ==> byName[name] < |names| && names[byName[name]] == name)
    && (forall g :: 0 <= g < |names| ==> names[g] in byName)
  }

  lemma IndexesOneMore(byName: map<string, nat>, front: seq<Template>, t: Template)
    requires Indexes(byName, FirstNames(front))
    ensures t.name in byName <==> t.name in FirstNames(front)
    ensures t.name in byName ==>
              byName[t.name] < |FirstNames(front)| && FirstNames(front)[byName[t.name]] == t.name
              && Indexes(byName, FirstNames(front + [t]))
    ensures t.name !in byName ==> Indexes(byName[t.name := |FirstNames(front)|], FirstNames(front + [t]))
  {
    NamesOneMore(front, t);
    var names := FirstNames(front);
    if t.name in byName {
      assert names[byName[t.name]] in names;
    }
    if t.name in names {
      var g :| 0 <= g < |names| && names[g] == t.name;
    }
  }

  method GroupTemplatesByName(templates: seq<Template>) returns (groups: seq<Group>)
    ensures groups == GroupsOf(templates)
  {
    groups := [];
    var byName: map<string, nat> := map[];
    for i := 0 to |templates|
      invariant groups == GroupsOf(templates[..i])
      invariant Indexes(byName, FirstNames(templates[..i]))
    {
      var t := templates[i];
      ghost var front := templates[..i];
      IndexesOneMore(byName, front, t);
      assert templates[..i + 1] == front + [t];
      if t.name in byName {
        var g := byName[t.name];
        Joins(front, t, g);
        groups := groups[g := Group(t, groups[g].versions + [t])];
      } else {
        Starts(front, t);
        byName := byName[t.name := |groups|];
        groups := groups + [Group(t, [t])];
      }
    }
    assert templates[..|templates|] == templates;
  }
}
