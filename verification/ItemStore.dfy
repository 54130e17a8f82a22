/**
 The checklist_items table, and the two statements groups that read and write it: Get's
 SELECT of the live rows in position order, and Save's reconciliation of an item list
 against the rows (INSERT new, UPDATE present, soft-delete absent).
 */
module ItemStore {
  import opened Domain
  import opened Query

  datatype ItemRow = ItemRow(item: Item, deleted: bool)
  type Rows = map<int, ItemRow>

  /** The primary key is the item id, and the id sequence is ahead of every row. */
  ghost predicate TableOk(rows: Rows, next: int) {
    && next > 0
    && forall id :: id in rows ==> rows[id].item.id == id && 0 < id < next
  }

  ghost predicate Keyed(rows: Rows) {
    forall id :: id in rows ==> rows[id].item.id == id
  }

  function LiveIds(rows: Rows, cid: int): set<int> {
    set id | id in rows && rows[id].item.checklistId == cid && !rows[id].deleted
  }

  function LiveItems(rows: Rows, cid: int): set<Item> {
    set id | id in LiveIds(rows, cid) :: rows[id].item
  }

  /** ORDER BY position; equal positions, which the lifecycle rules out, are ordered by id here. */
  predicate PositionLess(a: Item, b: Item) {
    a.position < b.position || (a.position == b.position && a.id < b.id)
  }

  lemma LiveItemsAreOrdered(rows: Rows, cid: int)
    requires Keyed(rows)
    ensures StrictTotalOn(PositionLess, LiveItems(rows, cid))
  {
  }

  function ReadItems(rows: Rows, cid: int): (items: seq<Item>)
    requires Keyed(rows)
    ensures Lists(items, LiveItems(rows, cid)) && Sorted(items, PositionLess)
  {
    LiveItemsAreOrdered(rows, cid);
    OrderBy(LiveItems(rows, cid), PositionLess)
  }

  datatype Saved = Saved(rows: Rows, next: int, items: seq<Item>)

  function NewRow(id: int, cid: int, item: Item): ItemRow {
    ItemRow(Item(id, cid, item.name, item.position, false, None, None, item.validationRef, None), false)
  }

  /** UPDATE: every column but checklist_id, validation_ref and deleted_at. */
  function Updated(row: ItemRow, item: Item): ItemRow {
    row.(item := row.item.(name := item.name, position := item.position, checked := item.checked,
                           checkedBy := item.checkedBy, checkedAt := item.checkedAt,
                           assigneeOverride := item.assigneeOverride))
  }

  /** One turn of Save's loop: INSERT when the item has no id yet, then UPDATE by id. */
  function SaveOne(s: Saved, cid: int, item: Item): Saved {
    var isNew := item.id == 0;
    var saved := if isNew then item.(id := s.next, checklistId := cid) else item;
    var rows := if isNew then s.rows[s.next := NewRow(s.next, cid, item)] else s.rows;
    Saved(if saved.id in rows then rows[saved.id := Updated(rows[saved.id], saved)] else rows,
          if isNew then s.next + 1 else s.next,
          s.items + [saved])
  }

  function SaveEach(rows: Rows, next: int, cid: int, items: seq<Item>): (s: Saved)
    ensures |s.items| == |items|
  {
    if |items| == 0 then Saved(rows, next, [])
    else SaveOne(SaveEach(rows, next, cid, items[..|items| - 1]), cid, items[|items| - 1])
  }

  function SoftDelete(rows: Rows, ids: set<int>): (r: Rows) {
    map id | id in rows :: if id in ids then rows[id].(deleted := true) else rows[id]
  }

  /** Save's effect on the item rows: the ids present before and not kept are soft-deleted. */
  function SaveItems(rows: Rows, next: int, cid: int, items: seq<Item>): Saved {
    var s := SaveEach(rows, next, cid, items);
    var kept := set k | 0 <= k < |s.items| :: s.items[k].id;
    s.(rows := SoftDelete(s.rows, LiveIds(rows, cid) - kept))
  }

  /** The live rows of the checklist are exactly these items, the item at index i at position i. */
  ghost predicate Represents(rows: Rows, cid: int, items: seq<Item>) {
    && DistinctIds(items)
    && (forall k :: 0 <= k < |items| ==>
         && items[k].position == k && items[k].checklistId == cid
         && items[k].id in rows && rows[items[k].id] == ItemRow(items[k], false))
    && (forall id :: id in LiveIds(rows, cid) ==> HasId(items, id))
  }

  ghost predicate HasId(items: seq<Item>, id: int) {
    exists k :: 0 <= k < |items| && items[k].id == id
  }

  /** Rows that hold none of the saved items: dropped ids of this checklist are soft-deleted, nothing else changes. */
  ghost predicate OthersUntouched(rows: Rows, rows': Rows, cid: int, items: seq<Item>) {
    && (forall id :: id in rows && !HasId(items, id) ==>
         id in rows' && rows'[id] == if id in LiveIds(rows, cid) then rows[id].(deleted := true) else rows[id])
    && (forall id :: id in rows' && id !in rows ==> HasId(items, id))
    && (forall id :: id in rows && HasId(items, id) ==> id in LiveIds(rows, cid))
  }

  /**
   What Save may be handed: positions equal to indices, new items without an id, and every
   other item naming a live row of this checklist, no two the same one.
   */
  ghost predicate Savable(rows: Rows, cid: int, items: seq<Item>) {
    && (forall k :: 0 <= k < |items| ==> items[k].position == k && items[k].checklistId == cid)
    && (forall k :: 0 <= k < |items| && items[k].id != 0 ==>
         items[k].id in LiveIds(rows, cid) && rows[items[k].id].item.validationRef == items[k].validationRef)
    && (forall j, k :: 0 <= j < k < |items| && items[j].id == items[k].id ==> items[j].id == 0)
  }

  /** The saved items are the given ones with fresh ids filled in. */
  ghost predicate FreshIdsFilled(items: seq<Item>, saved: seq<Item>, next: int, next': int) {
    && |saved| == |items|
    && DistinctIds(saved)
    && forall k :: 0 <= k < |items| ==>
         if items[k].id != 0 then saved[k] == items[k]
         else next <= saved[k].id < next' && saved[k] == items[k].(id := saved[k].id)
  }

  /** After Save's loop: each saved item is in its row, no other old row changed, no other row appeared. */
  ghost predicate WroteEach(rows: Rows, next: int, items: seq<Item>, s: Saved) {
    && TableOk(s.rows, s.next) && next <= s.next
    && FreshIdsFilled(items, s.items, next, s.next)
    && (forall k :: 0 <= k < |items| ==> s.items[k].id in s.rows && s.rows[s.items[k].id] == ItemRow(s.items[k], false))
    && (forall id :: id in rows ==> id in s.rows && (s.rows[id] == rows[id] || HasId(s.items, id)))
    && (forall id :: id in s.rows && id !in rows ==> HasId(s.items, id))
  }

  lemma SaveOneFills(rows: Rows, next: int, cid: int, front: seq<Item>, item: Item, p: Saved)
    requires TableOk(rows, next) && Savable(rows, cid, front + [item])
    requires WroteEach(rows, next, front, p)
    ensures var s := SaveOne(p, cid, item);
            && FreshIdsFilled(front + [item], s.items, next, s.next)
            && s.items == p.items + [s.items[|front|]]
            && !HasId(p.items, s.items[|front|].id)
            && s.items[|front|].checklistId == cid
            && (item.id != 0 ==>
                 item.id in LiveIds(rows, cid) && rows[item.id].item.validationRef == item.validationRef)
  {
    var items := front + [item];
    var s := SaveOne(p, cid, item);
    assert items[|front|] == item;
    forall k | 0 <= k < |front|
      ensures items[k] == front[k] && s.items[k] == p.items[k] && p.items[k].id != s.items[|front|].id
    {
    }
  }

  lemma SaveOneRow(rows: Rows, next: int, cid: int, front: seq<Item>, item: Item, p: Saved)
    requires TableOk(rows, next) && WroteEach(rows, next, front, p)
    requires item.id != 0 ==> item.id in LiveIds(rows, cid) && rows[item.id].item.validationRef == item.validationRef
                              && !HasId(p.items, item.id) && item.checklistId == cid
    ensures var s := SaveOne(p, cid, item);
            var it := s.items[|front|];
            && TableOk(s.rows, s.next) && next <= s.next
            && s.rows == p.rows[it.id := ItemRow(it, false)]
  {
  }

  lemma SaveOneWrites(rows: Rows, next: int, cid: int, front: seq<Item>, item: Item, p: Saved)
    requires TableOk(rows, next) && Savable(rows, cid, front + [item])
    requires WroteEach(rows, next, front, p)
    ensures WroteEach(rows, next, front + [item], SaveOne(p, cid, item))
  {
    SaveOneFills(rows, next, cid, front, item, p);
    SaveOneRow(rows, next, cid, front, item, p);
    var s := SaveOne(p, cid, item);
    HasIdGrows(p.items, s.items[|front|]);
  }

  lemma HasIdGrows(items: seq<Item>, item: Item)
    ensures forall id :: HasId(items + [item], id) <==> HasId(items, id) || id == item.id
  {
    var all := items + [item];
    assert all[|items|] == item && forall k :: 0 <= k < |items| ==> all[k] == items[k];
  }

  lemma {:induction false} SaveEachWritesEach(rows: Rows, next: int, cid: int, items: seq<Item>)
    requires TableOk(rows, next) && Savable(rows, cid, items)
    ensures WroteEach(rows, next, items, SaveEach(rows, next, cid, items))
  {
    if |items| == 0 {
    } else {
      var n := |items| - 1;
      SaveEachWritesEach(rows, next, cid, items[..n]);
      assert items == items[..n] + [items[n]];
      SaveOneWrites(rows, next, cid, items[..n], items[n], SaveEach(rows, next, cid, items[..n]));
    }
  }

  /**
   Save then Get gives back the items in the same order, with fresh distinct ids for the new
   ones; exactly the dropped ids become soft-deleted; every other row is left alone.
   */
  lemma SaveGetRoundTrip(rows: Rows, next: int, cid: int, items: seq<Item>)
    requires TableOk(rows, next) && Savable(rows, cid, items)
    ensures var s := SaveItems(rows, next, cid, items);
            && TableOk(s.rows, s.next) && next <= s.next
            && FreshIdsFilled(items, s.items, next, s.next)
            && Represents(s.rows, cid, s.items)
            && ReadItems(s.rows, cid) == s.items
            && OthersUntouched(rows, s.rows, cid, s.items)
  {
    SaveEachWritesEach(rows, next, cid, items);
    var s := SaveItems(rows, next, cid, items);
    var e := SaveEach(rows, next, cid, items);
    assert s.items == e.items;
    var kept := set k | 0 <= k < |e.items| :: e.items[k].id;
    assert forall id :: id in kept <==> HasId(s.items, id);
    assert s.rows == SoftDelete(e.rows, LiveIds(rows, cid) - kept);
    forall k | 0 <= k < |s.items|
      ensures s.items[k].id in kept && s.rows[s.items[k].id] == ItemRow(s.items[k], false)
    {
    }
    forall id | id in LiveIds(s.rows, cid)
      ensures HasId(s.items, id)
    {
    }
    RepresentedIsRead(s.rows, cid, s.items);
  }

  /** What the rows represent is what Get reads. */
  lemma RepresentedIsRead(rows: Rows, cid: int, items: seq<Item>)
    requires Keyed(rows) && Represents(rows, cid, items)
    ensures ReadItems(rows, cid) == items
  {
    var live := LiveItems(rows, cid);
    forall x
      ensures x in items <==> x in live
    {
      if x in items {
        var k :| 0 <= k < |items| && items[k] == x;
        assert items[k].id in LiveIds(rows, cid);
      }
      if x in live {
        var id :| id in LiveIds(rows, cid) && rows[id].item == x;
        var k :| 0 <= k < |items| && items[k].id == id;
        assert items[k] == x;
      }
    }
    LiveItemsAreOrdered(rows, cid);
    OrderByIsUnique(items, ReadItems(rows, cid), live, PositionLess);
  }

  ghost predicate OwnRowsSame(rows: Rows, rows': Rows, cid: int) {
    && (forall id :: id in rows && rows[id].item.checklistId == cid ==> id in rows' && rows'[id] == rows[id])
    && (forall id :: id in rows' && rows'[id].item.checklistId == cid ==>
         id in rows && rows[id].item.checklistId == cid)
  }

  /** Reading depends on the checklist's own rows only. */
  lemma ReadDependsOnOwnRows(rows: Rows, rows': Rows, cid: int)
    requires Keyed(rows) && Keyed(rows')
    requires OwnRowsSame(rows, rows', cid)
    ensures LiveIds(rows', cid) == LiveIds(rows, cid)
    ensures ReadItems(rows', cid) == ReadItems(rows, cid)
  {
    forall id
      ensures id in LiveIds(rows', cid) <==> id in LiveIds(rows, cid)
    {
    }
    assert LiveItems(rows', cid) == LiveItems(rows, cid);
  }
}
