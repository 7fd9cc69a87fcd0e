/**
 * The sortOrder of siblings.  makeRoomForSortOrder shifts the siblings up
 * before a record takes a given slot, and getNextSortOrder places a record
 * without one after its siblings, so creations and updates that give a
 * sortOrder, or keep the parent, keep the sortOrders of siblings distinct;
 * a move without a sortOrder keeps the record's old value under its new
 * parent and can collide.
 */
module CategorySiblingOrder {
  import opened Wrappers
  import opened CategoryTypes
  import opened CategoryTree
  import opened CategoryModel
  import opened CategoryService
  import opened CategoryHierarchy
  import opened CategoryInvariants
  import opened CategoryStaleness

  /** No two siblings, leaving `skip` aside, share a non-null sortOrder. */
  ghost predicate OrdersDistinctExcept(db: Db, skip: Option<Id>) {
    forall j, k ::
      (j in db && k in db && j != k && Some(j) != skip && Some(k) != skip
       && db[j].parentId == db[k].parentId && db[j].sortOrder.Some?) ==> db[j].sortOrder != db[k].sortOrder
  }

  /** No two siblings share a non-null sortOrder. */
  ghost predicate SiblingOrdersDistinct(db: Db) {
    OrdersDistinctExcept(db, None)
  }

  /** No record under `parentId` other than `x` holds the non-null sortOrder `order`. */
  ghost predicate SlotFree(db: Db, x: Id, parentId: Option<Id>, order: Option<int>) {
    order.Some? ==> forall k :: k in db && k != x && db[k].parentId == parentId ==> db[k].sortOrder != order
  }

  lemma DistinctWithout(db: Db, x: Id)
    requires SiblingOrdersDistinct(db)
    ensures OrdersDistinctExcept(db, Some(x))
  {
  }

  /** The shift keeps distinct sibling orders distinct. */
  lemma ShiftKeepsDistinct(db: Db, parentId: Option<Id>, newOrder: int, excludeId: Option<Id>)
    requires KeysMatchIds(db) && OrdersDistinctExcept(db, excludeId)
    ensures OrdersDistinctExcept(Shift(db, parentId, newOrder, excludeId), excludeId)
  {
    ShiftChangesOnlySortOrders(db, parentId, newOrder, excludeId);
  }

  /** After the shift the slot `newOrder` under `parentId` is free for `x`. */
  lemma ShiftFreesSlotFor(db: Db, parentId: Option<Id>, newOrder: int, x: Id, excludeId: Option<Id>)
    requires KeysMatchIds(db)
    requires excludeId.None? || excludeId == Some(x)
    ensures SlotFree(Shift(db, parentId, newOrder, excludeId), x, parentId, Some(newOrder))
  {
    ShiftChangesOnlySortOrders(db, parentId, newOrder, excludeId);
    ShiftFreesSlot(db, parentId, newOrder, excludeId);
  }

  /** Storing `r` under `x` in a free slot makes all sibling orders distinct. */
  lemma PlacedKeepsDistinct(db: Db, x: Id, r: Category)
    requires OrdersDistinctExcept(db, Some(x))
    requires SlotFree(db, x, r.parentId, r.sortOrder)
    ensures SiblingOrdersDistinct(db[x := r])
  {
  }

  /** Two siblings at 5 and 6: making room at 5 moves them to 6 and 7. */
  lemma ShiftExample()
    ensures var a := Category(0, "A", "a", None, None, "/a", 0, [], Some(5), true);
      var b := Category(1, "B", "b", None, None, "/b", 0, [], Some(6), true);
      var s := Shift(map[0 := a, 1 := b], None, 5, None);
      s[0].sortOrder == Some(6) && s[1].sortOrder == Some(7)
  {
  }

  /* ---------- createCategory ---------- */

  /** The record a creation stores sits under the payload's parent, in the given slot or after its siblings. */
  lemma CreatedRecordPlaced(db: Db, p: CreatePayload)
    requires KeysMatchIds(db)
    requires Created(db, p).1.Success?
    ensures var db1 := MadeRoom(db, p.parentId, p.sortOrder, None);
      var r := Created(db, p).1.value;
      && Created(db, p).0 == db1[r.id := r]
      && r.parentId == p.parentId
      && (p.sortOrder.Some? ==> r.sortOrder == p.sortOrder)
      && SlotFree(db1, r.id, r.parentId, r.sortOrder)
  {
    var db1 := MadeRoom(db, p.parentId, p.sortOrder, None);
    var doc := NewDocument(db1, p.name, p.slug, p.icon, p.parentId, p.sortOrder, p.isActive.GetOr(true));
    CreatedSteps(db, p);
    InsertedKeepsId(db1, doc);
    InsertedRecord(db1, doc);
    if p.sortOrder.Some? {
      ShiftFreesSlotFor(db, p.parentId, p.sortOrder.value, doc.id, None);
    } else {
      InsertedGoesLast(db1, doc);
    }
  }

  /** A creation keeps the sortOrders of siblings distinct. */
  lemma CreatedKeepsSiblingOrders(db: Db, p: CreatePayload)
    requires KeysMatchIds(db) && SiblingOrdersDistinct(db)
    requires Created(db, p).1.Success?
    ensures SiblingOrdersDistinct(Created(db, p).0)
  {
    var db1 := MadeRoom(db, p.parentId, p.sortOrder, None);
    var r := Created(db, p).1.value;
    CreatedRecordPlaced(db, p);
    assert SiblingOrdersDistinct(db1) by {
      if p.sortOrder.Some? {
        ShiftKeepsDistinct(db, p.parentId, p.sortOrder.value, None);
      }
    }
    DistinctWithout(db1, r.id);
    PlacedKeepsDistinct(db1, r.id, r);
  }

  /* ---------- updateCategory ---------- */

  /** The hook keeps the applied sortOrder: the given one, else the record's own. */
  lemma UpdateResultOrder(db: Db, id: Id, p: UpdatePayload)
    requires KeysMatchIds(db) && id in db
    ensures UpdateResult(db, id, p).sortOrder == if p.sortOrder.Some? then p.sortOrder else db[id].sortOrder
  {
    var applied := Applied(db, id, p);
    ReconciledKeepsOtherFields(applied, Shifted(db, id, p)[id := applied]);
  }

  /** After the shift of an update that gives a sortOrder or keeps the parent, the record's slot is free. */
  lemma UpdateSlotFree(db: Db, id: Id, p: UpdatePayload)
    requires KeysMatchIds(db) && SiblingOrdersDistinct(db) && id in db
    requires p.sortOrder.Some? || TargetParent(db, id, p) == db[id].parentId
    ensures var r := UpdateResult(db, id, p);
      && OrdersDistinctExcept(Shifted(db, id, p), Some(id))
      && SlotFree(Shifted(db, id, p), id, r.parentId, r.sortOrder)
  {
    UpdateResultDerived(db, id, p);
    UpdateResultOrder(db, id, p);
    var t := TargetParent(db, id, p);
    var db1 := Shifted(db, id, p);
    var r := UpdateResult(db, id, p);
    DistinctWithout(db, id);
    if p.sortOrder.Some? {
      ShiftKeepsDistinct(db, t, p.sortOrder.value, Some(id));
      ShiftFreesSlotFor(db, t, p.sortOrder.value, id, Some(id));
    } else {
      assert db1 == db;
      forall k | r.sortOrder.Some? && k in db1 && k != id && db1[k].parentId == r.parentId
        ensures db1[k].sortOrder != r.sortOrder
      {
        assert db[id].sortOrder != db[k].sortOrder;
      }
    }
  }

  /**
   * An update that gives a sortOrder, or leaves the record under its parent,
   * keeps the sortOrders of siblings distinct.
   */
  lemma UpdatedKeepsSiblingOrders(db: Db, id: Id, p: UpdatePayload)
    requires KeysMatchIds(db) && SiblingOrdersDistinct(db)
    requires Updated(db, id, p).1.Success?
    requires p.sortOrder.Some? || (id in db && TargetParent(db, id, p) == db[id].parentId)
    ensures SiblingOrdersDistinct(Updated(db, id, p).0)
  {
    UpdatedReplaces(db, id, p);
    UpdateSlotFree(db, id, p);
    PlacedKeepsDistinct(Shifted(db, id, p), id, UpdateResult(db, id, p));
  }

  /**
   * A move without a sortOrder keeps the record's sortOrder: when a child of
   * the new parent already holds it, the move is accepted and two siblings
   * share it.
   */
  lemma MoveCanDuplicateOrder(db: Db, x: Id, y: Id, q: Option<Id>)
    requires KeysMatchIds(db) && SlugsOk(db)
    requires x in db && y in db && x != y
    requires db[y].parentId == q && db[x].sortOrder.Some? && db[x].sortOrder == db[y].sortOrder
    requires ParentCheck(db, q, Some(x)).Pass?
    ensures Moved(db, x, q).1.Success?
    ensures !SiblingOrdersDistinct(Moved(db, x, q).0)
  {
    var p := MovePayload(q);
    UpdateSucceeds(db, x, p);
    UpdatedReplaces(db, x, p);
    UpdateResultDerived(db, x, p);
    UpdateResultOrder(db, x, p);
    var db2 := Moved(db, x, q).0;
    assert Shifted(db, x, p) == db;
    assert db2[y] == db[y];
    assert db2[x].parentId == db2[y].parentId && db2[x].sortOrder == db2[y].sortOrder;
  }

  /** In the sample, moving "Phones" to the roots gives it the sortOrder 1 that "Electronics" holds. */
  lemma SampleMoveDuplicatesOrder()
    ensures Moved(SampleCollection(), 1, None).1.Success?
    ensures !SiblingOrdersDistinct(Moved(SampleCollection(), 1, None).0)
  {
    var db := SampleCollection();
    SampleLinks();
    SampleSlugsOk();
    ThreeLinked(db);
    assert db[0].sortOrder == Some(1) == db[1].sortOrder;
    MoveCanDuplicateOrder(db, 1, 0, None);
  }
}
