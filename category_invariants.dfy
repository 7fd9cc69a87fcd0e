/**
 * Which service operations keep the collection consistent (tree fields
 * derived from the parent, no dangling links, unique normalised slugs,
 * distinct sortOrders among siblings), and how moving a record that has
 * children breaks it, up to a cycle the parent check lets through.
 */
module CategoryInvariants {
  import opened Wrappers
  import opened CategoryTypes
  import opened CategoryTree
  import opened CategoryModel
  import opened CategoryService
  import opened CategoryHierarchy

  /* ---------- a generic preservation argument ---------- */

  /** `a` and `b` agree on everything the tree fields depend on or consist of. */
  predicate SameDerivation(a: Category, b: Category) {
    a.parentId == b.parentId && a.slug == b.slug && SameTree(a, b)
  }

  /**
   * If every record but `id` keeps its parent link, slug and tree fields, no
   * record but `id` appears or disappears, the children of `id` still see its
   * old tree fields, and `id` (if present) is current, then the collection is
   * still current.
   */
  lemma CurrentKept(db: Db, db2: Db, id: Id)
    requires TreeFieldsCurrent(db) && NoDangling(db)
    requires db2.Keys <= db.Keys + {id} && db.Keys - {id} <= db2.Keys
    requires forall k :: k in db2 && k != id ==> k in db && SameDerivation(db2[k], db[k])
    requires forall k :: k in db2 && k != id && db2[k].parentId == Some(id) ==>
               id in db && id in db2 && SameTree(db2[id], db[id])
    requires id in db2 ==> db2[id] == TreeFields(db2[id], db2)
    ensures TreeFieldsCurrent(db2)
  {
    forall k | k in db2 ensures CurrentAt(db2, k) {
      if k != id {
        assert CurrentAt(db, k);
        TreeFieldsFollowParent(db2[k], db[k], db2, db);
        CurrentIfSameTree(db2[k], db2);
      }
    }
  }

  /**
   * Storing `r` under its own id `x`, where every other record keeps its id
   * and parent link and `r`'s parent exists, keeps ids and parent links
   * sound.
   */
  lemma StoreKeepsLinks(db: Db, db1: Db, x: Id, r: Category)
    requires KeysMatchIds(db) && NoDangling(db)
    requires db1.Keys == db.Keys && r.id == x
    requires forall k :: k in db && k != x ==> db1[k].id == db[k].id && db1[k].parentId == db[k].parentId
    requires r.parentId.None? || r.parentId.value in db
    ensures KeysMatchIds(db1[x := r]) && NoDangling(db1[x := r])
  {
  }

  /**
   * `r`, derived from a record with the same parent link and slug against a
   * collection `e` that agrees with `db1` on the parent's tree fields, is
   * current once stored in `db1` under an id other than its parent's.
   */
  lemma StoredIsCurrent(db1: Db, e: Db, x: Id, src: Category, r: Category)
    requires r.parentId == src.parentId && r.slug == src.slug && r == TreeFields(src, e)
    requires r.parentId.Some? ==> r.parentId.value != x && (r.parentId.value in db1 <==> r.parentId.value in e)
    requires r.parentId.Some? && r.parentId.value in db1 ==> SameTree(db1[r.parentId.value], e[r.parentId.value])
    ensures CurrentAt(db1[x := r], x)
  {
    TreeFieldsFollowParent(r, src, db1[x := r], e);
    CurrentIfSameTree(r, db1[x := r]);
  }

  /**
   * Storing a current record `r` under `x`, where every other record keeps
   * what its tree fields derive from, keeps the collection current as long
   * as the children of `x` (if any) still see the same tree fields.
   */
  lemma StoreKeepsCurrent(db: Db, db1: Db, x: Id, r: Category)
    requires TreeFieldsCurrent(db) && NoDangling(db)
    requires db1.Keys == db.Keys
    requires forall k :: k in db && k != x ==> SameDerivation(db1[k], db[k])
    requires CurrentAt(db1[x := r], x)
    requires x in db && HasChild(db, x) ==> SameTree(r, db[x])
    ensures TreeFieldsCurrent(db1[x := r])
  {
    var db2 := db1[x := r];
    forall k | k in db2 && k != x && db2[k].parentId == Some(x)
      ensures x in db && x in db2 && SameTree(db2[x], db[x])
    {
      assert db[k].parentId == Some(x);
    }
    CurrentKept(db, db2, x);
  }

  /**
   * `db1` differs from `db` in sortOrders only, `e` is `db1` but at `x`,
   * and `r`, stored under its own id `x`, is derived in `e` from `src`,
   * which has `r`'s parent link and slug.
   */
  ghost predicate StagedFrom(db: Db, db1: Db, e: Db, x: Id, src: Category, r: Category) {
    && db1.Keys == db.Keys && e.Keys == db.Keys && r.id == x
    && (forall k :: k in db && k != x ==> db1[k].id == db[k].id && SameDerivation(db1[k], db[k]) && e[k] == db1[k])
    && r.parentId == src.parentId && r.slug == src.slug && r == TreeFields(src, e)
  }

  /** The three parts together: storing a staged record keeps the collection consistent. */
  lemma StoreKeepsConsistent(db: Db, db1: Db, e: Db, x: Id, src: Category, r: Category)
    requires Consistent(db) && StagedFrom(db, db1, e, x, src, r)
    requires r.parentId.None? || (r.parentId.value in db && r.parentId.value != x)
    requires x in db && HasChild(db, x) ==> SameTree(r, db[x])
    ensures Consistent(db1[x := r])
  {
    StoreKeepsLinks(db, db1, x, r);
    StoredIsCurrent(db1, e, x, src, r);
    StoreKeepsCurrent(db, db1, x, r);
  }

  /* ---------- slugs ---------- */

  /** No two records share a slug and every slug is in normal form. */
  ghost predicate SlugsOk(db: Db) {
    SlugsUnique(db) && forall k :: k in db ==> IsNormalSlug(db[k].slug)
  }

  /** The shift changes no slug. */
  lemma MadeRoomKeepsSlugs(db: Db, parentId: Option<Id>, sortOrder: Option<int>, excludeId: Option<Id>)
    requires KeysMatchIds(db) && SlugsOk(db)
    ensures SlugsOk(MadeRoom(db, parentId, sortOrder, excludeId))
  {
    var s := MadeRoom(db, parentId, sortOrder, excludeId);
    MadeRoomKeepsRecords(db, parentId, sortOrder, excludeId);
    assert forall k :: k in s ==> s[k].slug == db[k].slug;
  }

  /** The shift keeps every record's id, parent link, slug and tree fields. */
  lemma MadeRoomKeepsDerivation(db: Db, parentId: Option<Id>, sortOrder: Option<int>, excludeId: Option<Id>)
    requires KeysMatchIds(db)
    ensures var s := MadeRoom(db, parentId, sortOrder, excludeId);
      forall k :: k in db ==> s[k].id == db[k].id && SameDerivation(s[k], db[k])
  {
    MadeRoomKeepsRecords(db, parentId, sortOrder, excludeId);
  }

  /** Storing a record with a normal slug no other record holds keeps the slugs unique and normal. */
  lemma StoreKeepsSlugs(db: Db, x: Id, r: Category)
    requires SlugsOk(db) && IsNormalSlug(r.slug)
    requires forall k :: k in db && k != x ==> db[k].slug != r.slug
    ensures SlugsOk(db[x := r])
  {
  }

  /* ---------- createCategory ---------- */

  /** A creation keeps the collection consistent. */
  lemma CreatedKeepsConsistent(db: Db, p: CreatePayload)
    requires Consistent(db)
    requires Created(db, p).1.Success?
    ensures Consistent(Created(db, p).0)
  {
    var db1 := MadeRoom(db, p.parentId, p.sortOrder, None);
    var doc := NewDocument(db1, p.name, p.slug, p.icon, p.parentId, p.sortOrder, p.isActive.GetOr(true));
    assert Inserted(db1, doc).Success? && Created(db, p).0 == db1[doc.id := Inserted(db1, doc).value] by {
      CreatedSteps(db, p);
    }
    var r := Inserted(db1, doc).value;
    assert r.id == doc.id && r == TreeFields(r, db1) && (r.parentId.None? || r.parentId.value in db) by {
      CreatedSteps(db, p);
      ParentCheckPasses(db, p.parentId, None);
      InsertedKeepsId(db1, doc);
      InsertedTreeFields(db1, doc);
    }
    MadeRoomKeepsDerivation(db, p.parentId, p.sortOrder, None);
    StoreKeepsConsistent(db, db1, db1, doc.id, r, r);
  }

  /** A creation keeps the slugs unique and normal. */
  lemma CreatedKeepsSlugs(db: Db, p: CreatePayload)
    requires KeysMatchIds(db) && SlugsOk(db)
    requires Created(db, p).1.Success?
    ensures SlugsOk(Created(db, p).0)
  {
    var db1 := MadeRoom(db, p.parentId, p.sortOrder, None);
    var doc := NewDocument(db1, p.name, p.slug, p.icon, p.parentId, p.sortOrder, p.isActive.GetOr(true));
    assert Inserted(db1, doc).Success? && Created(db, p).0 == db1[doc.id := Inserted(db1, doc).value] by {
      CreatedSteps(db, p);
    }
    var r := Inserted(db1, doc).value;
    assert IsNormalSlug(r.slug) && !SlugTaken(db1, r.slug, None) by {
      InsertedRecord(db1, doc);
    }
    MadeRoomKeepsSlugs(db, p.parentId, p.sortOrder, None);
    StoreKeepsSlugs(db1, doc.id, r);
  }

  /* ---------- updateCategory, moveCategory, reorderCategory ---------- */

  /** The collection after the shift of updateCategory. */
  function Shifted(db: Db, id: Id, p: UpdatePayload): (s: Db)
    requires id in db
    ensures s.Keys == db.Keys
  {
    MadeRoom(db, TargetParent(db, id, p), p.sortOrder, Some(id))
  }

  /** The record after the `$set` of updateCategory, before the hook. */
  function Applied(db: Db, id: Id, p: UpdatePayload): Category
    requires id in db
  {
    ApplySet(Shifted(db, id, p)[id], SetOf(p, TargetParent(db, id, p)))
  }

  /** The record the hook of findOneAndUpdate stores for an accepted update. */
  function UpdateResult(db: Db, id: Id, p: UpdatePayload): Category
    requires id in db
  {
    Reconciled(Applied(db, id, p), Shifted(db, id, p)[id := Applied(db, id, p)])
  }

  /** `doc` with the slug the hook writes back. */
  function HookSlug(doc: Category): Category {
    doc.(slug := if doc.slug != [] then NormalizeSlug(doc.slug) else doc.slug)
  }

  /** An accepted update is the replacement of one record after the shift. */
  lemma UpdatedReplaces(db: Db, id: Id, p: UpdatePayload)
    requires KeysMatchIds(db)
    requires Updated(db, id, p).1.Success?
    ensures id in db
    ensures Updated(db, id, p).0 == Shifted(db, id, p)[id := UpdateResult(db, id, p)]
    ensures Updated(db, id, p).1.value == UpdateResult(db, id, p)
  {
    UpdatedSteps(db, id, p);
  }

  /** The hook re-derives the applied record: same id, parent link and normalised slug, fresh tree fields. */
  lemma UpdateResultDerived(db: Db, id: Id, p: UpdatePayload)
    requires KeysMatchIds(db) && id in db
    ensures var r := UpdateResult(db, id, p); var src := HookSlug(Applied(db, id, p));
      && r.id == id && r.parentId == TargetParent(db, id, p) && r.parentId == src.parentId && r.slug == src.slug
      && r == TreeFields(src, Shifted(db, id, p)[id := Applied(db, id, p)])
  {
    var applied := Applied(db, id, p);
    ReconciledKeepsOtherFields(applied, Shifted(db, id, p)[id := applied]);
    MadeRoomKeepsRecords(db, TargetParent(db, id, p), p.sortOrder, Some(id));
  }

  /** The record of an accepted update is staged from the shifted collection. */
  lemma UpdateResultStaged(db: Db, id: Id, p: UpdatePayload)
    requires KeysMatchIds(db) && id in db
    ensures StagedFrom(db, Shifted(db, id, p), Shifted(db, id, p)[id := Applied(db, id, p)], id,
                       HookSlug(Applied(db, id, p)), UpdateResult(db, id, p))
  {
    var db1 := Shifted(db, id, p);
    UpdateResultDerived(db, id, p);
    MadeRoomKeepsDerivation(db, TargetParent(db, id, p), p.sortOrder, Some(id));
    StagedByReplace(db, db1, db1[id := Applied(db, id, p)], id, Applied(db, id, p), HookSlug(Applied(db, id, p)), UpdateResult(db, id, p));
  }

  /** A record derived in the shifted collection `e`, which has `a` written under `x`, is staged from it. */
  lemma StagedByReplace(db: Db, db1: Db, e: Db, x: Id, a: Category, src: Category, r: Category)
    requires db1.Keys == db.Keys && x in db && e == db1[x := a]
    requires forall k :: k in db && k != x ==> db1[k].id == db[k].id && SameDerivation(db1[k], db[k])
    requires r.id == x && r.parentId == src.parentId && r.slug == src.slug && r == TreeFields(src, e)
    ensures StagedFrom(db, db1, e, x, src, r)
  {
    assert forall k :: k in db && k != x ==> e[k] == db1[k];
  }

  /**
   * An accepted update keeps the collection consistent when the record has
   * no children, or when its own tree fields come out unchanged.
   */
  lemma UpdatedKeepsConsistent(db: Db, id: Id, p: UpdatePayload)
    requires Consistent(db)
    requires Updated(db, id, p).1.Success?
    requires !HasChild(db, id) || (id in db && SameTree(Updated(db, id, p).1.value, db[id]))
    ensures Consistent(Updated(db, id, p).0)
  {
    UpdatedReplaces(db, id, p);
    assert TargetParent(db, id, p).Some? ==> TargetParent(db, id, p).value in db && TargetParent(db, id, p).value != id by {
      UpdatedSteps(db, id, p);
      ParentCheckPasses(db, TargetParent(db, id, p), Some(id));
    }
    UpdateResultDerived(db, id, p);
    UpdateResultStaged(db, id, p);
    StoreKeepsConsistent(db, Shifted(db, id, p), Shifted(db, id, p)[id := Applied(db, id, p)], id,
                          HookSlug(Applied(db, id, p)), UpdateResult(db, id, p));
  }

  /** The slug of the record of an accepted update is in normal form. */
  lemma UpdateResultSlugNormal(db: Db, id: Id, p: UpdatePayload)
    requires KeysMatchIds(db) && SlugsOk(db) && id in db
    ensures IsNormalSlug(UpdateResult(db, id, p).slug)
  {
    var applied := Applied(db, id, p);
    var db1 := Shifted(db, id, p);
    MadeRoomKeepsRecords(db, TargetParent(db, id, p), p.sortOrder, Some(id));
    ReconciledKeepsOtherFields(applied, db1[id := applied]);
    if applied.slug != [] {
      NormalizeSlugIsNormal(applied.slug);
    } else {
      assert UpdateResult(db, id, p).slug == [];
    }
  }

  /** An accepted update keeps the slugs unique and normal. */
  lemma UpdatedKeepsSlugs(db: Db, id: Id, p: UpdatePayload)
    requires KeysMatchIds(db) && SlugsOk(db)
    requires Updated(db, id, p).1.Success?
    ensures SlugsOk(Updated(db, id, p).0)
  {
    UpdatedReplaces(db, id, p);
    UpdatedSlugFree(db, id, p);
    UpdateResultSlugNormal(db, id, p);
    MadeRoomKeepsSlugs(db, TargetParent(db, id, p), p.sortOrder, Some(id));
    StoreKeepsSlugs(Shifted(db, id, p), id, UpdateResult(db, id, p));
  }

  /** With normal slugs the hook gives the record back its own tree fields when it stays under the same parent. */
  lemma SameParentSameTree(db: Db, id: Id, p: UpdatePayload)
    requires Consistent(db) && SlugsOk(db)
    requires Updated(db, id, p).1.Success?
    requires TargetParent(db, id, p) == db[id].parentId
    requires p.slug.None?
    ensures SameTree(Updated(db, id, p).1.value, db[id])
  {
    UpdatedReplaces(db, id, p);
    ConsistentAcyclic(db);
    var t := TargetParent(db, id, p);
    if t.Some? {
      assert Up(db, id, 1) == t;
    }
    assert CurrentAt(db, id);
    UpdateResultKeepsTree(db, id, p);
  }

  /**
   * The record the hook derives, for an update that keeps the parent (not the
   * record itself) and the normal slug, has the tree fields of the current
   * record.
   */
  lemma UpdateResultKeepsTree(db: Db, id: Id, p: UpdatePayload)
    requires KeysMatchIds(db) && id in db && IsNormalSlug(db[id].slug) && p.slug.None?
    requires TargetParent(db, id, p) == db[id].parentId
    requires db[id].parentId != Some(id)
    requires db[id] == TreeFields(db[id], db)
    ensures SameTree(UpdateResult(db, id, p), db[id])
  {
    var t := TargetParent(db, id, p);
    var db1 := Shifted(db, id, p);
    MadeRoomKeepsRecords(db, t, p.sortOrder, Some(id));
    var applied := Applied(db, id, p);
    var e := db1[id := applied];
    UpdateResultDerived(db, id, p);
    var src := HookSlug(applied);
    assert applied.slug == db[id].slug;
    if applied.slug != [] {
      NormalSlugFixed(applied.slug);
    }
    assert src.slug == db[id].slug;
    if t.Some? && t.value in db {
      assert e[t.value] == db1[t.value];
    }
    TreeFieldsFollowParent(src, db[id], e, db);
  }

  /** A reorder keeps the collection consistent, whatever the record's children. */
  lemma ReorderedKeepsConsistent(db: Db, id: Id, sortOrder: int)
    requires Consistent(db) && SlugsOk(db)
    requires Reordered(db, id, sortOrder).1.Success?
    ensures Consistent(Reordered(db, id, sortOrder).0) && SlugsOk(Reordered(db, id, sortOrder).0)
  {
    var p := UpdatePayload(None, None, None, Some(db[id].parentId), Some(sortOrder), None);
    assert Reordered(db, id, sortOrder) == Updated(db, id, p);
    SameParentSameTree(db, id, p);
    UpdatedKeepsConsistent(db, id, p);
    UpdatedKeepsSlugs(db, id, p);
  }

  /** Moving a record that has no children keeps the collection consistent. */
  lemma LeafMoveKeepsConsistent(db: Db, id: Id, newParentId: Option<Id>)
    requires Consistent(db) && SlugsOk(db)
    requires !HasChild(db, id)
    requires Moved(db, id, newParentId).1.Success?
    ensures Consistent(Moved(db, id, newParentId).0) && SlugsOk(Moved(db, id, newParentId).0)
  {
    UpdatedKeepsConsistent(db, id, UpdatePayload(None, None, None, Some(newParentId), None, None));
    UpdatedKeepsSlugs(db, id, UpdatePayload(None, None, None, Some(newParentId), None, None));
  }

  /* ---------- deleteCategory ---------- */

  /** The record as a soft delete leaves it. */
  function Deactivated(doc: Category): Category {
    doc.(isActive := false)
  }

  /** The hook finds nothing to rewrite in a deactivated current record with a normal slug. */
  lemma DeactivatedReconciled(db: Db, id: Id)
    requires id in db && CurrentAt(db, id) && IsNormalSlug(db[id].slug)
    ensures Reconciled(Deactivated(db[id]), db[id := Deactivated(db[id])]) == Deactivated(db[id])
  {
    var d := Deactivated(db[id]);
    if d.slug != [] {
      NormalSlugFixed(d.slug);
    }
    assert d.(slug := if d.slug != [] then NormalizeSlug(d.slug) else d.slug) == d;
    ReplacedIsCurrent(db, id, Deactivated(db[id]));
  }

  /** With unique slugs the deactivated record's slug is held by no other record. */
  lemma DeactivatedSlugFree(db: Db, id: Id)
    requires SlugsUnique(db) && id in db
    ensures !SlugTaken(db[id := Deactivated(db[id])], Deactivated(db[id]).slug, Some(id))
  {
  }

  /** The `$set` of a soft delete. */
  const Deactivate := UpdateSet(None, None, None, Some(false), None, None)

  /** findOneAndUpdate with `{isActive: false}` on such a record writes exactly the deactivated record. */
  lemma DeactivationInPlace(db: Db, id: Id)
    requires SlugsUnique(db) && id in db && db[id].id == id && CurrentAt(db, id) && IsNormalSlug(db[id].slug)
    ensures UpdatedInPlace(db, id, Deactivate).0 == db[id := Deactivated(db[id])]
    ensures UpdatedInPlace(db, id, Deactivate).1 == Success(Some(Deactivated(db[id])))
  {
    var d := Deactivated(db[id]);
    var applied := ApplySet(db[id], Deactivate);
    assert applied == d;
    var db1 := db[id := applied];
    var rec := Reconciled(applied, db1);
    assert rec == d by {
      DeactivatedReconciled(db, id);
    }
    assert !SlugTaken(db1, rec.slug, Some(rec.id)) by {
      DeactivatedSlugFree(db, id);
    }
    assert WriteDerived(db1, rec) == db1 by {
      WriteDerivedStores(db1, rec);
      assert db1[id := rec] == db1;
    }
  }

  /**
   * In a current collection with unique normal slugs, a soft delete of a
   * record that exists clears its `isActive` and changes nothing else: the
   * post hook finds the slug and the tree fields already right.
   */
  lemma SoftDeleteDeactivates(db: Db, id: Id)
    requires KeysMatchIds(db) && SlugsOk(db) && TreeFieldsCurrent(db)
    requires id in db
    ensures Deleted(db, id, false).0 == db[id := Deactivated(db[id])]
    ensures Deleted(db, id, false).1 == Success(Deletion(true, false, Some(Deactivated(db[id]))))
  {
    assert IsNormalSlug(db[id].slug) && CurrentAt(db, id) && db[id].id == id;
    DeactivationInPlace(db, id);
    assert Deleted(db, id, false).0 == UpdatedInPlace(db, id, Deactivate).0;
  }

  /** Under the same conditions a soft delete fails exactly when no record has the id, with NotFound and no change. */
  lemma SoftDeleteOutcome(db: Db, id: Id)
    requires KeysMatchIds(db) && SlugsOk(db) && TreeFieldsCurrent(db)
    ensures Deleted(db, id, false).1.Success? <==> id in db
    ensures id !in db ==> Deleted(db, id, false).0 == db && Deleted(db, id, false).1 == Failure(NotFound)
  {
    if id in db {
      SoftDeleteDeactivates(db, id);
    }
  }

  /** Deactivating a record keeps the collection consistent and its slugs unique and normal. */
  lemma DeactivationKeepsConsistent(db: Db, id: Id)
    requires Consistent(db) && SlugsOk(db) && id in db
    ensures Consistent(db[id := Deactivated(db[id])]) && SlugsOk(db[id := Deactivated(db[id])])
  {
    var d := Deactivated(db[id]);
    KeptDerivationKeepsConsistent(db, id, d);
    KeptSlugKeepsSlugs(db, id, d);
  }

  /** Replacing a record by one with the same id, parent link, slug and tree fields keeps the collection consistent. */
  lemma KeptDerivationKeepsConsistent(db: Db, id: Id, r: Category)
    requires Consistent(db) && id in db
    requires r.id == id && SameDerivation(r, db[id])
    ensures Consistent(db[id := r])
  {
    ReplacedKeepsCurrent(db, id, r);
    assert KeysMatchIds(db[id := r]);
  }

  /** The same replacement keeps every record's tree fields current. */
  lemma ReplacedKeepsCurrent(db: Db, id: Id, r: Category)
    requires TreeFieldsCurrent(db) && id in db && SameDerivation(r, db[id])
    ensures TreeFieldsCurrent(db[id := r])
  {
    var db2 := db[id := r];
    forall k | k in db2
      ensures CurrentAt(db2, k)
    {
      assert CurrentAt(db, k);
      if k == id {
        ReplacedIsCurrent(db, id, r);
      } else {
        TreeFieldsFollowParent(db[k], db[k], db2, db);
        CurrentIfSameTree(db[k], db2);
      }
    }
  }

  /** A current record replaced by one with the same parent link, slug and tree fields is current where it is stored. */
  lemma ReplacedIsCurrent(db: Db, id: Id, r: Category)
    requires id in db && CurrentAt(db, id) && SameDerivation(r, db[id])
    ensures TreeFields(r, db[id := r]) == r
  {
    TreeFieldsFollowParent(r, db[id], db[id := r], db);
    CurrentIfSameTree(r, db[id := r]);
  }

  /** Replacing a record by one with the same slug keeps the slugs unique and normal. */
  lemma KeptSlugKeepsSlugs(db: Db, id: Id, r: Category)
    requires SlugsOk(db) && id in db && r.slug == db[id].slug
    ensures SlugsOk(db[id := r])
  {
    assert IsNormalSlug(db[id].slug);
    StoreKeepsSlugs(db, id, r);
  }

  /** A soft delete keeps the collection consistent and its slugs unique and normal. */
  lemma SoftDeleteKeepsConsistent(db: Db, id: Id)
    requires Consistent(db) && SlugsOk(db)
    ensures Consistent(Deleted(db, id, false).0) && SlugsOk(Deleted(db, id, false).0)
  {
    if id in db {
      SoftDeleteDeactivates(db, id);
      DeactivationKeepsConsistent(db, id);
    } else {
      SoftDeleteOutcome(db, id);
    }
  }

  /**
   * A hard delete keeps the collection consistent and its slugs unique and
   * normal: it removes only a record no other record names as parent.
   */
  lemma HardDeleteKeepsConsistent(db: Db, id: Id)
    requires Consistent(db) && SlugsOk(db)
    ensures Consistent(Deleted(db, id, true).0) && SlugsOk(Deleted(db, id, true).0)
  {
    if !HasChild(db, id) {
      var db2 := db - {id};
      assert Deleted(db, id, true).0 == db2;
      forall k | k in db2 && db2[k].parentId.Some? ensures db2[k].parentId.value in db2 {
        assert db[k].parentId != Some(id);
      }
      CurrentKept(db, db2, id);
    }
  }
}
