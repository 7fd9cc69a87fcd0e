/**
 * src/app/modules/category/category.services.ts: the writing services.  A
 * MongoDB transaction is modelled as a snapshot of the collection taken when
 * it starts and restored when it aborts; each database call is one atomic
 * step on the collection.
 */
module CategoryService {
  import opened Wrappers
  import opened Ascii
  import opened CategoryTypes
  import opened CategoryTree
  import opened CategoryModel

  /* ---------- the service payloads ---------- */

  /** What `createCategory` receives; a missing `isActive` means true. */
  datatype CreatePayload = CreatePayload(
    name: string,
    slug: Option<string>,
    icon: Option<string>,
    parentId: Option<Id>,
    sortOrder: Option<int>,
    isActive: Option<bool>)

  /**
   * What `updateCategory` receives.  The outer `Option` of `icon` and
   * `parentId` is "present in the payload"; the inner one is the JSON null.
   * A null `sortOrder` is the same as a missing one.
   */
  datatype UpdatePayload = UpdatePayload(
    name: Option<string>,
    slug: Option<string>,
    icon: Option<Option<string>>,
    parentId: Option<Option<Id>>,
    sortOrder: Option<int>,
    isActive: Option<bool>)

  /* ---------- ensureParentOK ---------- */

  /**
   * The parent check: no parent is fine; otherwise the parent must exist
   * and, when a record is being moved, be neither the record itself nor a
   * record whose stored ancestors contain it.
   */
  function ParentCheck(db: Db, parentId: Option<Id>, selfId: Option<Id>): Outcome<Error> {
    if parentId.None? then Pass
    else if parentId.value !in db then Fail(ParentNotFound)
    else if selfId.Some? && db[parentId.value].id == selfId.value then Fail(OwnParent)
    else if selfId.Some? && selfId.value in db[parentId.value].ancestors then Fail(OwnSubtree)
    else Pass
  }

  method EnsureParentOK(store: CategoryCollection, parentId: Option<Id>, selfId: Option<Id>) returns (o: Outcome<Error>)
    ensures o == ParentCheck(store.docs, parentId, selfId)
  {
    if parentId.None? {
      return Pass;
    }
    if parentId.value !in store.docs {
      return Fail(ParentNotFound);
    }
    var parent := store.docs[parentId.value];
    if selfId.Some? {
      if parent.id == selfId.value {
        return Fail(OwnParent);
      }
      if selfId.value in parent.ancestors {
        return Fail(OwnSubtree);
      }
    }
    o := Pass;
  }

  /** A passing check names an existing parent that is not the record and does not list it as an ancestor. */
  lemma ParentCheckPasses(db: Db, parentId: Option<Id>, selfId: Option<Id>)
    requires KeysMatchIds(db)
    ensures ParentCheck(db, parentId, selfId).Pass? <==>
      (parentId.None? ||
       (parentId.value in db &&
        (selfId.Some? ==> parentId.value != selfId.value && selfId.value !in db[parentId.value].ancestors)))
  {
  }

  /* ---------- makeRoomForSortOrder ---------- */

  /** The filter of the shift: a sibling under `parentId`, other than `excludeId`, whose sortOrder is at least `newOrder`. */
  predicate Shifts(r: Category, parentId: Option<Id>, newOrder: int, excludeId: Option<Id>) {
    r.parentId == parentId && r.sortOrder.Some? && r.sortOrder.value >= newOrder && Some(r.id) != excludeId
  }

  /** `updateMany(filter, {$inc: {sortOrder: 1}})`. */
  function Shift(db: Db, parentId: Option<Id>, newOrder: int, excludeId: Option<Id>): (r: Db)
    ensures r.Keys == db.Keys
  {
    map k | k in db :: if Shifts(db[k], parentId, newOrder, excludeId)
                         then db[k].(sortOrder := Some(db[k].sortOrder.value + 1)) else db[k]
  }

  method MakeRoomForSortOrder(store: CategoryCollection, parentId: Option<Id>, newOrder: int, excludeId: Option<Id>)
    modifies store
    ensures store.docs == Shift(old(store.docs), parentId, newOrder, excludeId)
  {
    store.docs := Shift(store.docs, parentId, newOrder, excludeId);
  }

  /** The shift changes only sortOrders, and only of the matching siblings, by exactly one. */
  lemma ShiftChangesOnlySortOrders(db: Db, parentId: Option<Id>, newOrder: int, excludeId: Option<Id>)
    ensures var s := Shift(db, parentId, newOrder, excludeId);
      forall k :: k in db ==>
        && s[k].(sortOrder := db[k].sortOrder) == db[k]
        && (Shifts(db[k], parentId, newOrder, excludeId) ==> s[k].sortOrder == Some(db[k].sortOrder.value + 1))
        && (!Shifts(db[k], parentId, newOrder, excludeId) ==> s[k] == db[k])
  {
  }

  /** After the shift no sibling but the excluded one holds `newOrder`: the slot is free. */
  lemma ShiftFreesSlot(db: Db, parentId: Option<Id>, newOrder: int, excludeId: Option<Id>)
    ensures var s := Shift(db, parentId, newOrder, excludeId);
      forall k :: k in s && s[k].parentId == parentId && Some(s[k].id) != excludeId ==> s[k].sortOrder != Some(newOrder)
  {
  }

  /** The shift keeps the relative order of the siblings it can see, and never lowers a sortOrder. */
  lemma ShiftKeepsSiblingOrder(db: Db, parentId: Option<Id>, newOrder: int, excludeId: Option<Id>, a: Id, b: Id)
    requires a in db && b in db
    requires db[a].parentId == parentId && db[b].parentId == parentId
    requires Some(db[a].id) != excludeId && Some(db[b].id) != excludeId
    requires db[a].sortOrder.Some? && db[b].sortOrder.Some?
    ensures var s := Shift(db, parentId, newOrder, excludeId);
      && (db[a].sortOrder.value < db[b].sortOrder.value <==> s[a].sortOrder.value < s[b].sortOrder.value)
      && db[a].sortOrder.value <= s[a].sortOrder.value <= db[a].sortOrder.value + 1
  {
  }

  /** The shift when a sortOrder is given, else no change. */
  function MadeRoom(db: Db, parentId: Option<Id>, sortOrder: Option<int>, excludeId: Option<Id>): (r: Db)
    ensures r.Keys == db.Keys
  {
    if sortOrder.Some? then Shift(db, parentId, sortOrder.value, excludeId) else db
  }

  /** The shift keeps every record's id, parent link and every field but sortOrder. */
  lemma MadeRoomKeepsRecords(db: Db, parentId: Option<Id>, sortOrder: Option<int>, excludeId: Option<Id>)
    requires KeysMatchIds(db)
    ensures var s := MadeRoom(db, parentId, sortOrder, excludeId);
      && KeysMatchIds(s)
      && forall k :: k in db ==> s[k].(sortOrder := db[k].sortOrder) == db[k]
  {
    if sortOrder.Some? {
      ShiftChangesOnlySortOrders(db, parentId, sortOrder.value, excludeId);
    }
  }

  /* ---------- createCategory ---------- */

  /**
   * createCategory: the parent check, the shift when a sortOrder is given,
   * then the insert; any error rolls the transaction back.
   */
  function Created(db: Db, p: CreatePayload): (res: (Db, Result<Category, Error>))
    ensures res.1.Failure? ==> res.0 == db
  {
    var check := ParentCheck(db, p.parentId, None);
    if check.Fail? then (db, Failure(check.error))
    else
      var db1 := MadeRoom(db, p.parentId, p.sortOrder, None);
      var doc := NewDocument(db1, p.name, p.slug, p.icon, p.parentId, p.sortOrder, p.isActive.GetOr(true));
      Committed(db, db1, Inserted(db1, doc))
  }

  /**
   * The end of the transaction: on success the staged collection with the
   * new record written, on failure the collection from before it began.
   */
  function Committed(db: Db, db1: Db, ins: Result<Category, Error>): (res: (Db, Result<Category, Error>))
    ensures res.1 == ins
    ensures ins.Failure? ==> res.0 == db
    ensures ins.Success? ==> res.0 == db1[ins.value.id := ins.value]
  {
    match ins
    case Failure(e) => (db, Failure(e))
    case Success(r) => (db1[r.id := r], Success(r))
  }

  method CreateCategory(store: CategoryCollection, p: CreatePayload) returns (r: Result<Category, Error>)
    modifies store
    ensures (store.docs, r) == Created(old(store.docs), p)
  {
    var snapshot := store.docs;
    var check := EnsureParentOK(store, p.parentId, None);
    if check.Fail? {
      store.docs := snapshot;
      return Failure(check.error);
    }
    if p.sortOrder.Some? {
      MakeRoomForSortOrder(store, p.parentId, p.sortOrder.value, None);
    }
    var doc := NewDocument(store.docs, p.name, p.slug, p.icon, p.parentId, p.sortOrder, p.isActive.GetOr(true));
    r := Insert(store, doc);
    if r.Failure? {
      store.docs := snapshot;
    }
  }

  /** A successful creation adds exactly one record, under an id not in use before. */
  lemma CreatedAddsOne(db: Db, p: CreatePayload)
    requires Created(db, p).1.Success?
    ensures Created(db, p).1.value.id !in db
    ensures Created(db, p).0.Keys == db.Keys + {Created(db, p).1.value.id}
    ensures Created(db, p).0[Created(db, p).1.value.id] == Created(db, p).1.value
  {
    CreatedSteps(db, p);
    var db1 := MadeRoom(db, p.parentId, p.sortOrder, None);
    var doc := NewDocument(db1, p.name, p.slug, p.icon, p.parentId, p.sortOrder, p.isActive.GetOr(true));
    InsertedKeepsId(db1, doc);
    StoredUnderFreshId(db, db1, Inserted(db1, doc).value);
  }

  /** Storing a record under an id the collection does not use adds exactly that key. */
  lemma StoredUnderFreshId(db: Db, db1: Db, r: Category)
    requires db1.Keys == db.Keys && r.id == FreshId(db1)
    ensures r.id !in db
    ensures db1[r.id := r].Keys == db.Keys + {r.id} && db1[r.id := r][r.id] == r
  {
  }

  /** The steps of a successful creation: the parent check passed and the insert succeeded after the shift. */
  lemma CreatedSteps(db: Db, p: CreatePayload)
    requires Created(db, p).1.Success?
    ensures var db1 := MadeRoom(db, p.parentId, p.sortOrder, None);
      var doc := NewDocument(db1, p.name, p.slug, p.icon, p.parentId, p.sortOrder, p.isActive.GetOr(true));
      && ParentCheck(db, p.parentId, None).Pass?
      && Inserted(db1, doc).Success?
      && Created(db, p).0 == db1[doc.id := Inserted(db1, doc).value]
      && Created(db, p).1 == Inserted(db1, doc)
  {
    var db1 := MadeRoom(db, p.parentId, p.sortOrder, None);
    var doc := NewDocument(db1, p.name, p.slug, p.icon, p.parentId, p.sortOrder, p.isActive.GetOr(true));
    InsertedKeepsId(db1, doc);
  }

  /* ---------- updateCategory, moveCategory, reorderCategory ---------- */

  /** The parent the record ends up under: the payload's when present, else its current one. */
  function TargetParent(db: Db, id: Id, p: UpdatePayload): Option<Id>
    requires id in db
  {
    if p.parentId.Some? then p.parentId.value else db[id].parentId
  }

  /** The `$set` the service builds from the payload. */
  function SetOf(p: UpdatePayload, parentId: Option<Id>): UpdateSet {
    UpdateSet(p.name, p.slug, p.icon, p.isActive, if p.parentId.Some? then Some(parentId) else None, p.sortOrder)
  }

  /**
   * updateCategory: not found, the parent check against the target parent,
   * the shift among the target's children when a sortOrder is given, then
   * findOneAndUpdate with its hook; any error rolls the transaction back.
   */
  function Updated(db: Db, id: Id, p: UpdatePayload): (Db, Result<Category, Error>) {
    if id !in db then (db, Failure(NotFound))
    else
      var parentId := TargetParent(db, id, p);
      match ParentCheck(db, parentId, Some(id))
      case Fail(e) => (db, Failure(e))
      case Pass =>
        var db1 := MadeRoom(db, parentId, p.sortOrder, Some(id));
        var (db2, r) := UpdatedInPlace(db1, id, SetOf(p, parentId));
        if r.Failure? then (db, Failure(r.error))
        else
          assert r.value.Some?;
          (db2, Success(r.value.value))
  }

  method UpdateCategory(store: CategoryCollection, id: Id, p: UpdatePayload) returns (r: Result<Category, Error>)
    modifies store
    ensures (store.docs, r) == Updated(old(store.docs), id, p)
  {
    var snapshot := store.docs;
    if id !in store.docs {
      return Failure(NotFound);
    }
    var existing := store.docs[id];
    var parentId := if p.parentId.Some? then p.parentId.value else existing.parentId;
    var check := EnsureParentOK(store, parentId, Some(id));
    if check.Fail? {
      store.docs := snapshot;
      return Failure(check.error);
    }
    if p.sortOrder.Some? {
      MakeRoomForSortOrder(store, parentId, p.sortOrder.value, Some(id));
    }
    var updated := FindOneAndUpdate(store, id, SetOf(p, parentId));
    if updated.Failure? {
      store.docs := snapshot;
      return Failure(updated.error);
    }
    r := Success(updated.value.value);
  }

  /** A failed update leaves the collection as it was; a successful one keeps the set of records. */
  lemma UpdatedIsAtomic(db: Db, id: Id, p: UpdatePayload)
    requires KeysMatchIds(db)
    ensures var (db2, r) := Updated(db, id, p);
      && (r.Failure? ==> db2 == db)
      && (r.Success? ==> id in db && db2.Keys == db.Keys && KeysMatchIds(db2) && db2[id] == r.value)
  {
    if id in db {
      var parentId := TargetParent(db, id, p);
      if ParentCheck(db, parentId, Some(id)).Fail? {
        assert Updated(db, id, p).0 == db;
      } else {
        var db1 := MadeRoom(db, parentId, p.sortOrder, Some(id));
        MadeRoomKeepsRecords(db, parentId, p.sortOrder, Some(id));
        UpdatedInPlaceShape(db1, id, SetOf(p, parentId));
        var res := UpdatedInPlace(db1, id, SetOf(p, parentId));
        if res.1.Failure? {
          assert Updated(db, id, p).0 == db;
        } else {
          assert Updated(db, id, p) == (res.0, Success(res.1.value.value));
        }
      }
    }
  }

  /**
   * After a successful update the record sits under the target parent; name,
   * icon, isActive and sortOrder are the given value (the name trimmed) or
   * else the stored one; the slug is the given one trimmed, or else the stored
   * one, normalised unless it is empty.  The tree fields are in
   * `UpdatedTreeFields`.
   */
  lemma UpdatedRecord(db: Db, id: Id, p: UpdatePayload)
    requires KeysMatchIds(db)
    requires Updated(db, id, p).1.Success?
    ensures id in db
    ensures var r := Updated(db, id, p).1.value;
      && r.id == id
      && r.parentId == TargetParent(db, id, p)
      && r.name == (if p.name.Some? then Trim(p.name.value) else db[id].name)
      && r.icon == (if p.icon.Some? then p.icon.value else db[id].icon)
      && r.isActive == (if p.isActive.Some? then p.isActive.value else db[id].isActive)
      && r.sortOrder == (if p.sortOrder.Some? then p.sortOrder else db[id].sortOrder)
      && (p.slug.Some? && Trim(p.slug.value) != [] ==> r.slug == NormalizeSlug(Trim(p.slug.value)))
      && (p.slug.Some? && Trim(p.slug.value) == [] ==> r.slug == [])
      && (p.slug.None? && db[id].slug != [] ==> r.slug == NormalizeSlug(db[id].slug))
      && (p.slug.None? && db[id].slug == [] ==> r.slug == [])
  {
    UpdatedSteps(db, id, p);
    var t := TargetParent(db, id, p);
    var db1 := MadeRoom(db, t, p.sortOrder, Some(id));
    MadeRoomKeepsRecords(db, t, p.sortOrder, Some(id));
    var upd := SetOf(p, t);
    var applied := ApplySet(db1[id], upd);
    assert db1[id].(sortOrder := db[id].sortOrder) == db[id];
    SetThenHook(db1[id], upd, db1[id := applied]);
  }

  /**
   * The tree fields of the updated record are derived again: they are the
   * ones its parent link and slug give in the collection the hook reads, the
   * shifted collection with the `$set` record written.
   */
  lemma UpdatedTreeFields(db: Db, id: Id, p: UpdatePayload)
    requires KeysMatchIds(db)
    requires Updated(db, id, p).1.Success?
    ensures var t := TargetParent(db, id, p);
      var db1 := MadeRoom(db, t, p.sortOrder, Some(id));
      var r := Updated(db, id, p).1.value;
      id in db1 && r == TreeFields(r, db1[id := ApplySet(db1[id], SetOf(p, t))])
  {
    UpdatedSteps(db, id, p);
    var t := TargetParent(db, id, p);
    var db1 := MadeRoom(db, t, p.sortOrder, Some(id));
    var applied := ApplySet(db1[id], SetOf(p, t));
    var staged := applied.(slug := if applied.slug != [] then NormalizeSlug(applied.slug) else applied.slug);
    assert Reconciled(applied, db1[id := applied]) == TreeFields(staged, db1[id := applied]);
    TreeFieldsIdempotent(staged, db1[id := applied]);
  }

  /** The parent link a successful update stores. */
  lemma UpdatedParent(db: Db, id: Id, p: UpdatePayload)
    requires KeysMatchIds(db)
    requires Updated(db, id, p).1.Success?
    ensures id in db && id in Updated(db, id, p).0
    ensures Updated(db, id, p).0[id].parentId == TargetParent(db, id, p)
  {
    UpdatedSteps(db, id, p);
    UpdatedRecord(db, id, p);
  }

  /** The record the hook returns after `$set`: each written field as given, the others as they were. */
  lemma SetThenHook(doc: Category, upd: UpdateSet, e: Db)
    ensures var r := Reconciled(ApplySet(doc, upd), e);
      && r.id == doc.id
      && r.parentId == (if upd.parentId.Some? then upd.parentId.value else doc.parentId)
      && r.name == (if upd.name.Some? then Trim(upd.name.value) else doc.name)
      && r.icon == (if upd.icon.Some? then upd.icon.value else doc.icon)
      && r.isActive == (if upd.isActive.Some? then upd.isActive.value else doc.isActive)
      && r.sortOrder == (if upd.sortOrder.Some? then Some(upd.sortOrder.value) else doc.sortOrder)
      && (upd.slug.Some? && Trim(upd.slug.value) != [] ==> r.slug == NormalizeSlug(Trim(upd.slug.value)))
      && (upd.slug.Some? && Trim(upd.slug.value) == [] ==> r.slug == [])
      && (upd.slug.None? && doc.slug != [] ==> r.slug == NormalizeSlug(doc.slug))
      && (upd.slug.None? && doc.slug == [] ==> r.slug == [])
  {
    ReconciledKeepsOtherFields(ApplySet(doc, upd), e);
  }

  /**
   * The steps of a successful update: the parent check passed, the shift
   * (if any) happened, and the collection holds the hook's record under the
   * id, and nothing else changed after the shift.
   */
  lemma UpdatedSteps(db: Db, id: Id, p: UpdatePayload)
    requires KeysMatchIds(db)
    requires Updated(db, id, p).1.Success?
    ensures id in db
    ensures var t := TargetParent(db, id, p);
      var db1 := MadeRoom(db, t, p.sortOrder, Some(id));
      var applied := ApplySet(db1[id], SetOf(p, t));
      var rec := Reconciled(applied, db1[id := applied]);
      && ParentCheck(db, t, Some(id)).Pass?
      && id in db1
      && Updated(db, id, p).0 == db1[id := rec]
      && Updated(db, id, p).1 == Success(rec)
  {
    var t := TargetParent(db, id, p);
    var db1 := MadeRoom(db, t, p.sortOrder, Some(id));
    MadeRoomKeepsRecords(db, t, p.sortOrder, Some(id));
    var upd := SetOf(p, t);
    assert db1[id].id == id;
    UpdatedInPlaceStores(db1, id, upd);
  }

  /** The slug a successful update stores is held by no other record. */
  lemma UpdatedSlugFree(db: Db, id: Id, p: UpdatePayload)
    requires KeysMatchIds(db)
    requires Updated(db, id, p).1.Success?
    ensures id in db
    ensures var r := Updated(db, id, p).1.value;
      var db1 := MadeRoom(db, TargetParent(db, id, p), p.sortOrder, Some(id));
      forall k :: k in db1 && k != id ==> db1[k].slug != r.slug
  {
    UpdatedSteps(db, id, p);
    var t := TargetParent(db, id, p);
    var db1 := MadeRoom(db, t, p.sortOrder, Some(id));
    MadeRoomKeepsRecords(db, t, p.sortOrder, Some(id));
    var upd := SetOf(p, t);
    var applied := ApplySet(db1[id], upd);
    var rec := Reconciled(applied, db1[id := applied]);
    ReconciledKeepsOtherFields(applied, db1[id := applied]);
    assert rec.id == id;
    assert UpdatedInPlace(db1, id, upd).1.Success?;
    UpdatedInPlaceSlugsFree(db1, id, upd);
    SlugFreeElsewhere(db1, id, applied, rec.slug);
  }

  /** A slug no other record of `db[id := doc]` holds is held by no other record of `db`. */
  lemma SlugFreeElsewhere(db: Db, id: Id, doc: Category, slug: string)
    requires !SlugTaken(db[id := doc], slug, Some(id))
    ensures forall k :: k in db && k != id ==> db[k].slug != slug
  {
    forall k | k in db && k != id
      ensures db[k].slug != slug
    {
      assert db[id := doc][k] == db[k];
    }
  }

  /** moveCategory: an update that changes only the parent. */
  function Moved(db: Db, id: Id, newParentId: Option<Id>): (Db, Result<Category, Error>) {
    Updated(db, id, UpdatePayload(None, None, None, Some(newParentId), None, None))
  }

  method MoveCategory(store: CategoryCollection, id: Id, newParentId: Option<Id>) returns (r: Result<Category, Error>)
    modifies store
    ensures (store.docs, r) == Moved(old(store.docs), id, newParentId)
  {
    r := UpdateCategory(store, id, UpdatePayload(None, None, None, Some(newParentId), None, None));
  }

  /** reorderCategory: not found, else an update that keeps the current parent and sets the sortOrder. */
  function Reordered(db: Db, id: Id, sortOrder: int): (Db, Result<Category, Error>) {
    if id !in db then (db, Failure(NotFound))
    else Updated(db, id, UpdatePayload(None, None, None, Some(db[id].parentId), Some(sortOrder), None))
  }

  method ReorderCategory(store: CategoryCollection, id: Id, sortOrder: int) returns (r: Result<Category, Error>)
    modifies store
    ensures (store.docs, r) == Reordered(old(store.docs), id, sortOrder)
  {
    if id !in store.docs {
      return Failure(NotFound);
    }
    var cat := store.docs[id];
    r := UpdateCategory(store, id, UpdatePayload(None, None, None, Some(cat.parentId), Some(sortOrder), None));
  }

  /** A reorder keeps the record under its parent, gives it the requested slot and moves no other parent link. */
  lemma ReorderedKeepsParents(db: Db, id: Id, sortOrder: int)
    requires KeysMatchIds(db)
    requires Reordered(db, id, sortOrder).1.Success?
    ensures id in db
    ensures var (db2, r) := Reordered(db, id, sortOrder);
      && r.value.parentId == db[id].parentId
      && r.value.sortOrder == Some(sortOrder)
      && db2.Keys == db.Keys
      && forall k :: k in db ==> db2[k].parentId == db[k].parentId
  {
    var p := UpdatePayload(None, None, None, Some(db[id].parentId), Some(sortOrder), None);
    assert Reordered(db, id, sortOrder) == Updated(db, id, p);
    UpdatedRecord(db, id, p);
    UpdatedIsAtomic(db, id, p);
    var parentId := TargetParent(db, id, p);
    var db1 := MadeRoom(db, parentId, p.sortOrder, Some(id));
    MadeRoomKeepsRecords(db, parentId, p.sortOrder, Some(id));
    UpdatedInPlaceShape(db1, id, SetOf(p, parentId));
    var res := UpdatedInPlace(db1, id, SetOf(p, parentId));
    assert Updated(db, id, p).0 == res.0;
  }

  /* ---------- deleteCategory, removeCategory ---------- */

  /** The answer of a delete: `{deleted, hard}` and, for a soft delete, the record. */
  datatype Deletion = Deletion(deleted: bool, hard: bool, doc: Option<Category>)

  /** Some record names `id` as its parent. */
  predicate HasChild(db: Db, id: Id) {
    exists k :: k in db && db[k].parentId == Some(id)
  }

  /**
   * deleteCategory.  Soft: findByIdAndUpdate setting `isActive` false (with
   * the post hook), outside any transaction, so a failure in the hook's
   * second write leaves the first in place.  Hard: refused while any record
   * (active or not) has it as parent, else deleteOne.
   */
  function Deleted(db: Db, id: Id, hard: bool): (Db, Result<Deletion, Error>) {
    if !hard then
      var (db1, r) := UpdatedInPlace(db, id, UpdateSet(None, None, None, Some(false), None, None));
      if r.Failure? then (db1, Failure(r.error))
      else if r.value.None? then (db1, Failure(NotFound))
      else (db1, Success(Deletion(true, false, r.value)))
    else if HasChild(db, id) then (db, Failure(HasChildren))
    else (db - {id}, Success(Deletion(id in db, true, None)))
  }

  method DeleteCategory(store: CategoryCollection, id: Id, hard: bool) returns (r: Result<Deletion, Error>)
    modifies store
    ensures (store.docs, r) == Deleted(old(store.docs), id, hard)
  {
    if !hard {
      var doc := FindOneAndUpdate(store, id, UpdateSet(None, None, None, Some(false), None, None));
      if doc.Failure? {
        return Failure(doc.error);
      }
      if doc.value.None? {
        return Failure(NotFound);
      }
      return Success(Deletion(true, false, doc.value));
    }
    if HasChild(store.docs, id) {
      return Failure(HasChildren);
    }
    var deletedCount := if id in store.docs then 1 else 0;
    store.docs := store.docs - {id};
    r := Success(Deletion(deletedCount == 1, true, None));
  }

  method RemoveCategory(store: CategoryCollection, id: Id, hard: bool) returns (r: Result<Deletion, Error>)
    modifies store
    ensures (store.docs, r) == Deleted(old(store.docs), id, hard)
  {
    r := DeleteCategory(store, id, hard);
  }

  /** A soft delete keeps every record, only deactivates the one named, and leaves the rest untouched. */
  lemma SoftDeleteKeepsRecords(db: Db, id: Id)
    requires KeysMatchIds(db)
    requires Deleted(db, id, false).1.Success?
    ensures var (db2, r) := Deleted(db, id, false);
      && id in db && db2.Keys == db.Keys
      && !db2[id].isActive && r.value.doc == Some(db2[id])
      && db2[id].parentId == db[id].parentId
      && forall k :: k in db && k != id ==> db2[k] == db[k]
  {
    var upd := UpdateSet(None, None, None, Some(false), None, None);
    UpdatedInPlaceShape(db, id, upd);
    var res := UpdatedInPlace(db, id, upd);
    assert Deleted(db, id, false) == (res.0, Success(Deletion(true, false, res.1.value)));
    var applied := ApplySet(db[id], upd);
    ReconciledKeepsOtherFields(applied, db[id := applied]);
  }

  /** A hard delete never removes a record that is still some record's parent, and removes nothing else. */
  lemma HardDeleteLeavesNoOrphan(db: Db, id: Id)
    requires Deleted(db, id, true).1.Success?
    ensures var db2 := Deleted(db, id, true).0;
      && db2.Keys == db.Keys - {id}
      && (forall k :: k in db2 ==> db2[k] == db[k] && db2[k].parentId != Some(id))
  {
  }
}
