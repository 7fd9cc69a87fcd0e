/**
 * src/app/modules/category/category.model.ts: the collection's schema rules
 * (required name and slug, the unique index on slug, the trim setters), the
 * `getNextSortOrder` static and the three hooks that derive fields on insert
 * and after an in-place update.
 */
module CategoryModel {
  import opened Wrappers
  import opened Ascii
  import opened CategoryTypes
  import opened CategoryTree

  /* ---------- getNextSortOrder ---------- */

  /** The largest `sortOrder` among the non-null ones of the records of `rs` under `parentId`. */
  function MaxSiblingOrder(rs: seq<Category>, parentId: Option<Id>): (m: Option<int>)
    ensures m.None? <==> forall i :: 0 <= i < |rs| && rs[i].parentId == parentId ==> rs[i].sortOrder.None?
    ensures m.Some? ==> exists i :: 0 <= i < |rs| && rs[i].parentId == parentId && rs[i].sortOrder == m
    ensures m.Some? ==> forall i :: 0 <= i < |rs| && rs[i].parentId == parentId && rs[i].sortOrder.Some? ==>
                          rs[i].sortOrder.value <= m.value
  {
    if rs == [] then None
    else
      var rest := MaxSiblingOrder(rs[1..], parentId);
      if rs[0].parentId != parentId || rs[0].sortOrder.None? then rest
      else if rest.None? || rest.value < rs[0].sortOrder.value then rs[0].sortOrder
      else rest
  }

  /**
   * `getNextSortOrder(parentId)`: one more than the largest non-null sortOrder
   * among the records under `parentId`, or 1 when none of them has one.
   */
  function NextSortOrder(db: Db, parentId: Option<Id>): (r: int)
    ensures forall k :: k in db && db[k].parentId == parentId && db[k].sortOrder.Some? ==>
              db[k].sortOrder.value < r
    ensures (exists k :: k in db && db[k].parentId == parentId && db[k].sortOrder == Some(r - 1))
            || (r == 1 && forall k :: k in db && db[k].parentId == parentId ==> db[k].sortOrder.None?)
  {
    var top := MaxSiblingOrder(Records(db), parentId);
    SiblingMaxOfCollection(db, parentId);
    if top.Some? then top.value + 1 else 1
  }

  /** What `MaxSiblingOrder` says about `Records(db)`, restated over the collection's keys. */
  lemma SiblingMaxOfCollection(db: Db, parentId: Option<Id>)
    ensures var top := MaxSiblingOrder(Records(db), parentId);
      && (forall k :: k in db && db[k].parentId == parentId && db[k].sortOrder.Some? ==>
            top.Some? && db[k].sortOrder.value <= top.value)
      && (top.Some? ==> exists k :: k in db && db[k].parentId == parentId && db[k].sortOrder == top)
      && (top.None? ==> forall k :: k in db && db[k].parentId == parentId ==> db[k].sortOrder.None?)
  {
    var rs := Records(db);
    var ids := NaturalOrder(db);
    var top := MaxSiblingOrder(rs, parentId);
    forall k | k in db
      ensures db[k].parentId == parentId && db[k].sortOrder.Some? ==> top.Some? && db[k].sortOrder.value <= top.value
    {
      var j :| 0 <= j < |ids| && ids[j] == k;
      assert rs[j] == db[k];
    }
    if top.Some? {
      var i :| 0 <= i < |rs| && rs[i].parentId == parentId && rs[i].sortOrder == top;
      assert db[ids[i]] == rs[i];
    }
  }

  /* ---------- schema rules ---------- */

  /** The unique index on `slug`: some record other than `except` already holds `slug`. */
  predicate SlugTaken(db: Db, slug: string, except: Option<Id>) {
    exists k :: k in db && Some(k) != except && db[k].slug == slug
  }

  /** No two records of the collection share a slug. */
  ghost predicate SlugsUnique(db: Db) {
    forall j, k :: j in db && k in db && j != k ==> db[j].slug != db[k].slug
  }

  /** The required validators of `name` and `slug`; `path` always starts with "/" and is never empty. */
  predicate RequiredPresent(doc: Category) {
    doc.name != [] && doc.slug != [] && doc.path != []
  }

  /* ---------- pre("validate") and pre("save") ---------- */

  /** The slug the pre-validate hook settles on: the given one normalised, or else the name normalised. */
  function SlugOnInsert(doc: Category): string {
    if doc.slug == [] then NormalizeSlug(doc.name) else NormalizeSlug(doc.slug)
  }

  /** pre("validate"): fix the slug, then derive the tree fields from the parent. */
  method PreValidate(doc: Category, store: CategoryCollection) returns (res: Category)
    ensures res == TreeFields(doc.(slug := SlugOnInsert(doc)), store.docs)
  {
    var d := doc;
    if d.slug == [] {
      d := d.(slug := NormalizeSlug(d.name));
    } else {
      d := d.(slug := NormalizeSlug(d.slug));
    }
    res := ComputeTreeFields(d, store);
  }

  /** pre("save"): a new record without a sortOrder gets the next one among its siblings. */
  method PreSave(doc: Category, isNew: bool, store: CategoryCollection) returns (res: Category)
    ensures isNew && doc.sortOrder.None? ==> res == doc.(sortOrder := Some(NextSortOrder(store.docs, doc.parentId)))
    ensures !(isNew && doc.sortOrder.None?) ==> res == doc
  {
    res := doc;
    if isNew && res.sortOrder.None? {
      res := res.(sortOrder := Some(NextSortOrder(store.docs, res.parentId)));
    }
  }

  /* ---------- insert (`Category.create`) ---------- */

  /**
   * The document Mongoose builds from the fields a creation passes, before any
   * hook runs: the trim setters applied, no slug when none is given, and the
   * next id.
   */
  function NewDocument(db: Db, name: string, slug: Option<string>, icon: Option<string>,
                       parentId: Option<Id>, sortOrder: Option<int>, isActive: bool): Category
  {
    Category(FreshId(db), Trim(name), Trim(slug.GetOr([])), icon, parentId, [], 0, [], sortOrder, isActive)
  }

  /**
   * What inserting `doc` yields: the hooks' record, or the validation error, or
   * the unique-index error.
   */
  function Inserted(db: Db, doc: Category): Result<Category, Error> {
    var v := TreeFields(doc.(slug := SlugOnInsert(doc)), db);
    if !RequiredPresent(v) then Failure(RequiredMissing)
    else
      var s := if v.sortOrder.None? then v.(sortOrder := Some(NextSortOrder(db, v.parentId))) else v;
      if SlugTaken(db, s.slug, None) then Failure(DuplicateSlug) else Success(s)
  }

  /** Insert one document: pre-validate, validation, pre-save, the unique index, the write. */
  method Insert(store: CategoryCollection, doc: Category) returns (r: Result<Category, Error>)
    modifies store
    ensures r == Inserted(old(store.docs), doc)
    ensures r.Success? ==> store.docs == old(store.docs)[r.value.id := r.value]
    ensures r.Failure? ==> store.docs == old(store.docs)
  {
    var v := PreValidate(doc, store);
    if !RequiredPresent(v) {
      return Failure(RequiredMissing);
    }
    var s := PreSave(v, true, store);
    if SlugTaken(store.docs, s.slug, None) {
      return Failure(DuplicateSlug);
    }
    store.docs := store.docs[s.id := s];
    r := Success(s);
  }

  /** A successful insert stores a normalised, non-empty, fresh slug and keeps a given sortOrder. */
  lemma InsertedRecord(db: Db, doc: Category)
    requires Inserted(db, doc).Success?
    ensures var r := Inserted(db, doc).value;
      && r.slug == SlugOnInsert(doc) && r.slug != [] && IsNormalSlug(r.slug)
      && !SlugTaken(db, r.slug, None)
      && r.sortOrder.Some?
      && (doc.sortOrder.Some? ==> r.sortOrder == doc.sortOrder)
  {
    var v := TreeFields(doc.(slug := SlugOnInsert(doc)), db);
    assert v.slug == SlugOnInsert(doc);
    if doc.slug == [] {
      NormalizeSlugIsNormal(doc.name);
    } else {
      NormalizeSlugIsNormal(doc.slug);
    }
  }

  /** A successful insert stores the document under its own id and parent. */
  lemma InsertedKeepsId(db: Db, doc: Category)
    requires Inserted(db, doc).Success?
    ensures Inserted(db, doc).value.id == doc.id
    ensures Inserted(db, doc).value.parentId == doc.parentId
  {
    TreeFieldsWritesOnlyTreeFields(doc.(slug := SlugOnInsert(doc)), db);
  }

  /**
   * A successful insert stores tree fields that agree with its parent as
   * found in the collection, and otherwise what the document held.
   */
  lemma InsertedTreeFields(db: Db, doc: Category)
    requires Inserted(db, doc).Success?
    ensures var r := Inserted(db, doc).value;
      && r == TreeFields(r, db)
      && r.(slug := doc.slug, level := doc.level, ancestors := doc.ancestors, path := doc.path,
            sortOrder := doc.sortOrder) == doc
  {
    var d := doc.(slug := SlugOnInsert(doc));
    var v := TreeFields(d, db);
    TreeFieldsWritesOnlyTreeFields(d, db);
    var r := Inserted(db, doc).value;
    assert r == v.(sortOrder := r.sortOrder);
    TreeFieldsDependOnParentAndSlug(r, v, db);
    TreeFieldsIdempotent(d, db);
    TreeFieldsWritesOnlyTreeFields(r, db);
  }

  /** An insert without a sortOrder places the new record after every sibling. */
  lemma InsertedGoesLast(db: Db, doc: Category)
    requires doc.sortOrder.None?
    requires Inserted(db, doc).Success?
    ensures var r := Inserted(db, doc).value;
      forall k :: k in db && db[k].parentId == doc.parentId && db[k].sortOrder.Some? ==>
        db[k].sortOrder.value < r.sortOrder.value
  {
  }

  /**
   * An insert succeeds exactly when the name is non-empty and the settled
   * slug is non-empty and held by no record; an empty one fails the required
   * check, a taken one the unique index.
   */
  lemma InsertedOutcome(db: Db, doc: Category)
    ensures Inserted(db, doc).Success? <==>
      doc.name != [] && SlugOnInsert(doc) != [] && !SlugTaken(db, SlugOnInsert(doc), None)
    ensures doc.name == [] || SlugOnInsert(doc) == [] ==> Inserted(db, doc) == Failure(RequiredMissing)
    ensures doc.name != [] && SlugOnInsert(doc) != [] && SlugTaken(db, SlugOnInsert(doc), None) ==>
      Inserted(db, doc) == Failure(DuplicateSlug)
  {
    var d := doc.(slug := SlugOnInsert(doc));
    TreeFieldsWritesOnlyTreeFields(d, db);
    TreeFieldsPathNonEmpty(d, db);
  }

  /* ---------- findOneAndUpdate and its post hook ---------- */

  /** The `$set` of an in-place update: each present field is written. */
  datatype UpdateSet = UpdateSet(
    name: Option<string>,
    slug: Option<string>,
    icon: Option<Option<string>>,
    isActive: Option<bool>,
    parentId: Option<Option<Id>>,
    sortOrder: Option<int>)

  /** The record after `$set`, string fields through their trim setters. */
  function ApplySet(doc: Category, upd: UpdateSet): Category {
    doc.(name := if upd.name.Some? then Trim(upd.name.value) else doc.name,
         slug := if upd.slug.Some? then Trim(upd.slug.value) else doc.slug,
         icon := if upd.icon.Some? then upd.icon.value else doc.icon,
         isActive := if upd.isActive.Some? then upd.isActive.value else doc.isActive,
         parentId := if upd.parentId.Some? then upd.parentId.value else doc.parentId,
         sortOrder := if upd.sortOrder.Some? then Some(upd.sortOrder.value) else doc.sortOrder)
  }

  /** post("findOneAndUpdate"): a non-empty slug normalised again, then the tree fields derived again. */
  function Reconciled(doc: Category, db: Db): Category {
    TreeFields(doc.(slug := if doc.slug != [] then NormalizeSlug(doc.slug) else doc.slug), db)
  }

  /** The hook rewrites only the slug and the three tree fields. */
  lemma ReconciledKeepsOtherFields(doc: Category, db: Db)
    ensures Reconciled(doc, db).(slug := doc.slug, level := doc.level, path := doc.path, ancestors := doc.ancestors) == doc
    ensures doc.slug != [] ==> Reconciled(doc, db).slug == NormalizeSlug(doc.slug)
    ensures doc.slug == [] ==> Reconciled(doc, db).slug == []
  {
    TreeFieldsWritesOnlyTreeFields(doc.(slug := if doc.slug != [] then NormalizeSlug(doc.slug) else doc.slug), db);
  }

  /** The hook's second write, `updateOne({_id}, {$set: {slug, level, path, ancestors}})`. */
  function WriteDerived(db: Db, rec: Category): Db {
    if rec.id in db then
      db[rec.id := db[rec.id].(slug := rec.slug, level := rec.level, path := rec.path, ancestors := rec.ancestors)]
    else db
  }

  /**
   * `findOneAndUpdate({_id: id}, {$set: set}, {new: true})` with its post hook:
   * the collection after both writes and the document returned, `None` when
   * no record has that id.  A unique-index failure of the second write leaves
   * the first write in place (a transaction around the call undoes it).
   */
  function UpdatedInPlace(db: Db, id: Id, upd: UpdateSet): (Db, Result<Option<Category>, Error>) {
    if id !in db then (db, Success(None))
    else
      var applied := ApplySet(db[id], upd);
      if upd.slug.Some? && SlugTaken(db, applied.slug, Some(id)) then (db, Failure(DuplicateSlug))
      else
        var db1 := db[id := applied];
        var rec := Reconciled(applied, db1);
        if SlugTaken(db1, rec.slug, Some(rec.id)) then (db1, Failure(DuplicateSlug))
        else (WriteDerived(db1, rec), Success(Some(rec)))
  }

  /** The post hook: normalise, derive, and write the four derived fields back. */
  method PostFindOneAndUpdate(store: CategoryCollection, doc: Category) returns (r: Result<Category, Error>)
    modifies store
    ensures SlugTaken(old(store.docs), Reconciled(doc, old(store.docs)).slug, Some(Reconciled(doc, old(store.docs)).id)) ==>
              r == Failure(DuplicateSlug) && store.docs == old(store.docs)
    ensures !SlugTaken(old(store.docs), Reconciled(doc, old(store.docs)).slug, Some(Reconciled(doc, old(store.docs)).id)) ==>
              r == Success(Reconciled(doc, old(store.docs)))
    ensures !SlugTaken(old(store.docs), Reconciled(doc, old(store.docs)).slug, Some(Reconciled(doc, old(store.docs)).id)) ==>
              store.docs == WriteDerived(old(store.docs), Reconciled(doc, old(store.docs)))
  {
    var d := doc;
    if d.slug != [] {
      d := d.(slug := NormalizeSlug(d.slug));
    }
    d := ComputeTreeFields(d, store);
    if SlugTaken(store.docs, d.slug, Some(d.id)) {
      return Failure(DuplicateSlug);
    }
    UpdateDerived(store, d);
    r := Success(d);
  }

  /** `updateOne({_id: rec.id}, {$set: {slug, level, path, ancestors}})`. */
  method UpdateDerived(store: CategoryCollection, rec: Category)
    modifies store
    ensures store.docs == WriteDerived(old(store.docs), rec)
  {
    if rec.id in store.docs {
      var stored := store.docs[rec.id];
      store.docs := store.docs[rec.id := stored.(slug := rec.slug, level := rec.level, path := rec.path, ancestors := rec.ancestors)];
    }
  }

  /** findOneAndUpdate: the `$set` write (checked by the unique index), then the post hook. */
  method FindOneAndUpdate(store: CategoryCollection, id: Id, upd: UpdateSet) returns (r: Result<Option<Category>, Error>)
    modifies store
    ensures (store.docs, r) == UpdatedInPlace(old(store.docs), id, upd)
  {
    if id !in store.docs {
      return Success(None);
    }
    var applied := ApplySet(store.docs[id], upd);
    if upd.slug.Some? && SlugTaken(store.docs, applied.slug, Some(id)) {
      return Failure(DuplicateSlug);
    }
    store.docs := store.docs[id := applied];
    var hooked := PostFindOneAndUpdate(store, applied);
    if hooked.Failure? {
      return Failure(hooked.error);
    }
    r := Success(Some(hooked.value));
  }

  /** A successful in-place update passed both unique-index checks. */
  lemma UpdatedInPlaceSlugsFree(db: Db, id: Id, upd: UpdateSet)
    requires id in db
    requires UpdatedInPlace(db, id, upd).1.Success?
    ensures var applied := ApplySet(db[id], upd);
      var rec := Reconciled(applied, db[id := applied]);
      && (upd.slug.Some? ==> !SlugTaken(db, applied.slug, Some(id)))
      && !SlugTaken(db[id := applied], rec.slug, Some(rec.id))
  {
  }

  /** When the stored record differs from `rec` only in the four derived fields, the second write stores `rec`. */
  lemma WriteDerivedStores(db: Db, rec: Category)
    requires rec.id in db
    requires rec.(slug := db[rec.id].slug, level := db[rec.id].level, path := db[rec.id].path,
                  ancestors := db[rec.id].ancestors) == db[rec.id]
    ensures WriteDerived(db, rec) == db[rec.id := rec]
  {
  }

  /** A successful in-place update of a record stored under its own id stores the hook's record there. */
  lemma UpdatedInPlaceStores(db: Db, id: Id, upd: UpdateSet)
    requires id in db && db[id].id == id
    requires UpdatedInPlace(db, id, upd).1.Success?
    ensures var applied := ApplySet(db[id], upd);
      var rec := Reconciled(applied, db[id := applied]);
      && UpdatedInPlace(db, id, upd).0 == db[id := rec]
      && UpdatedInPlace(db, id, upd).1 == Success(Some(rec))
  {
    var applied := ApplySet(db[id], upd);
    var db1 := db[id := applied];
    var rec := Reconciled(applied, db1);
    assert UpdatedInPlace(db, id, upd) == (WriteDerived(db1, rec), Success(Some(rec)));
    ReconciledKeepsOtherFields(applied, db1);
    WriteDerivedReplaces(db, id, applied, rec);
  }

  /** Writing the derived fields of `rec` over `applied` stores `rec` when they differ in nothing else. */
  lemma WriteDerivedReplaces(db: Db, id: Id, applied: Category, rec: Category)
    requires rec.id == id
    requires rec.(slug := applied.slug, level := applied.level, path := applied.path, ancestors := applied.ancestors) == applied
    ensures WriteDerived(db[id := applied], rec) == db[id := rec]
  {
    assert db[id := applied][id := rec] == db[id := rec];
  }

  /**
   * The shape of an in-place update: no record appears or disappears and no
   * other record changes; a missing id changes nothing; on success the record
   * holds the hook's result, which is derived from its *new* parent; on a
   * failure at most the first write has happened.
   */
  lemma {:induction false} UpdatedInPlaceShape(db: Db, id: Id, upd: UpdateSet)
    requires KeysMatchIds(db)
    ensures var (db2, r) := UpdatedInPlace(db, id, upd);
      && db2.Keys == db.Keys
      && KeysMatchIds(db2)
      && (forall k :: k in db && k != id ==> db2[k] == db[k])
      && (id !in db ==> db2 == db && r == Success(None))
      && (id in db && r.Success? ==>
            r.value.Some? && db2[id] == r.value.value
            && db2[id] == Reconciled(ApplySet(db[id], upd), db[id := ApplySet(db[id], upd)]))
      && (id in db && r.Failure? ==> db2 == db || db2 == db[id := ApplySet(db[id], upd)])
  {
    if id in db {
      var applied := ApplySet(db[id], upd);
      var db1 := db[id := applied];
      ReplacedKeepsOthers(db, id, applied);
      if UpdatedInPlace(db, id, upd).1.Success? {
        UpdatedInPlaceStores(db, id, upd);
        ReconciledKeepsOtherFields(applied, db1);
        ReplacedKeepsOthers(db, id, Reconciled(applied, db1));
      } else {
        UpdatedInPlaceFails(db, id, upd);
      }
    }
  }

  /** Replacing one record by one with the same id changes no key and no other record. */
  lemma ReplacedKeepsOthers(db: Db, id: Id, r: Category)
    requires KeysMatchIds(db) && id in db && r.id == id
    ensures db[id := r].Keys == db.Keys && KeysMatchIds(db[id := r])
    ensures forall k :: k in db && k != id ==> db[id := r][k] == db[k]
  {
  }

  /** A failed in-place update has at most made its first write. */
  lemma UpdatedInPlaceFails(db: Db, id: Id, upd: UpdateSet)
    requires id in db
    requires UpdatedInPlace(db, id, upd).1.Failure?
    ensures UpdatedInPlace(db, id, upd).0 == db || UpdatedInPlace(db, id, upd).0 == db[id := ApplySet(db[id], upd)]
  {
    var applied := ApplySet(db[id], upd);
    if upd.slug.Some? && SlugTaken(db, applied.slug, Some(id)) {
      assert UpdatedInPlace(db, id, upd).0 == db;
    }
  }
}
