/**
 * What the services do not maintain: the post hook of findOneAndUpdate
 * re-derives the tree fields of the updated record only, so a move of a
 * record that has children leaves the children's stored `level`, `path` and
 * `ancestors` stale, and the parent check, which trusts the stored
 * `ancestors`, then accepts a move that closes a cycle.
 */
module CategoryStaleness {
  import opened Wrappers
  import opened CategoryTypes
  import opened CategoryTree
  import opened CategoryModel
  import opened CategoryService
  import opened CategoryHierarchy
  import opened CategoryInvariants

  /** `a + [x]` determines `a`. */
  lemma SnocInjective(a: seq<Id>, b: seq<Id>, x: Id)
    requires a != b
    ensures a + [x] != b + [x]
  {
    if |a| == |b| {
      var i :| 0 <= i < |a| && a[i] != b[i];
      assert (a + [x])[i] != (b + [x])[i];
    } else {
      assert |a + [x]| != |b + [x]|;
    }
  }

  /* ---------- when an update is accepted ---------- */

  /** Without a new slug the hook stores the record's own slug, which no other record of the shifted collection holds. */
  lemma UpdateKeepsSlug(db: Db, id: Id, p: UpdatePayload)
    requires KeysMatchIds(db) && SlugsOk(db) && id in db && p.slug.None?
    ensures UpdateResult(db, id, p).slug == db[id].slug
    ensures UpdateResult(db, id, p).id == id
    ensures !SlugTaken(Shifted(db, id, p)[id := Applied(db, id, p)], db[id].slug, Some(id))
  {
    var t := TargetParent(db, id, p);
    var applied := Applied(db, id, p);
    var db1 := Shifted(db, id, p);
    MadeRoomKeepsRecords(db, t, p.sortOrder, Some(id));
    MadeRoomKeepsSlugs(db, t, p.sortOrder, Some(id));
    assert db1[id].slug == db[id].slug;
    assert applied.slug == db[id].slug;
    ReconciledKeepsOtherFields(applied, db1[id := applied]);
    assert IsNormalSlug(db[id].slug);
    if applied.slug != [] {
      NormalSlugFixed(applied.slug);
    }
    UniqueSlugFree(db1, id, applied);
  }

  /** With unique slugs, only the record itself holds its slug, whatever it is replaced by. */
  lemma UniqueSlugFree(db: Db, id: Id, rec: Category)
    requires SlugsUnique(db) && id in db
    ensures !SlugTaken(db[id := rec], db[id].slug, Some(id))
  {
  }

  /**
   * With unique normal slugs, an update that sets no slug is refused only by
   * the not-found and parent checks: once those pass it is accepted.
   */
  lemma UpdateSucceeds(db: Db, id: Id, p: UpdatePayload)
    requires KeysMatchIds(db) && SlugsOk(db) && id in db && p.slug.None?
    requires ParentCheck(db, TargetParent(db, id, p), Some(id)).Pass?
    ensures Updated(db, id, p).1.Success?
  {
    var t := TargetParent(db, id, p);
    var db1 := Shifted(db, id, p);
    var upd := SetOf(p, t);
    UpdateKeepsSlug(db, id, p);
    assert UpdatedInPlace(db1, id, upd).1.Success?;
  }

  /* ---------- a move leaves the children stale ---------- */

  /**
   * In a consistent collection, an accepted update that changes the stored
   * ancestors of a record with a child breaks consistency: the child still
   * stores the ancestors derived from the old ones.
   */
  lemma MoveWithChildMakesStale(db: Db, id: Id, p: UpdatePayload, c: Id)
    requires Consistent(db)
    requires Updated(db, id, p).1.Success?
    requires c in db && db[c].parentId == Some(id)
    requires Updated(db, id, p).1.value.ancestors != db[id].ancestors
    ensures c in Updated(db, id, p).0 && !CurrentAt(Updated(db, id, p).0, c)
    ensures !TreeFieldsCurrent(Updated(db, id, p).0)
  {
    UpdatedReplaces(db, id, p);
    var db2 := Updated(db, id, p).0;
    ConsistentAcyclic(db);
    assert c != id by {
      assert db[id].parentId != Some(id) by {
        assert Up(db, id, 1) != Some(id);
      }
    }
    assert db2[c] == Shifted(db, id, p)[c];
    assert db2[c].ancestors == db[c].ancestors && db2[c].parentId == Some(id) by {
      MadeRoomKeepsRecords(db, TargetParent(db, id, p), p.sortOrder, Some(id));
    }
    assert CurrentAt(db, c);
    TreeFieldsChild(db[c], db);
    TreeFieldsChild(db2[c], db2);
    SnocInjective(db2[id].ancestors, db[id].ancestors, id);
  }

  /* ---------- a stale collection lets a cycle close ---------- */

  /** The payload of moveCategory. */
  function MovePayload(newParentId: Option<Id>): UpdatePayload {
    UpdatePayload(None, None, None, Some(newParentId), None, None)
  }

  /** Three records: a root `x` with a child `y`, and another root `z`. */
  ghost predicate TwoRootsOneChild(db: Db, x: Id, y: Id, z: Id) {
    && Consistent(db) && SlugsOk(db)
    && x in db && y in db && z in db && x != y && y != z && x != z
    && db[x].parentId.None? && db[y].parentId == Some(x) && db[z].parentId.None?
  }

  /** Moving the root `x` under the other root `z` is accepted. */
  lemma FirstMoveAccepted(db: Db, x: Id, y: Id, z: Id)
    requires TwoRootsOneChild(db, x, y, z)
    ensures Moved(db, x, Some(z)).1.Success?
  {
    assert CurrentAt(db, z);
    TreeFieldsRoot(db[z], db);
    ParentCheckPasses(db, Some(z), Some(x));
    UpdateSucceeds(db, x, MovePayload(Some(z)));
  }

  /** The hook derives for `x`, moved under the root `z`, the ancestors `[z]`. */
  lemma FirstMoveRecord(db: Db, x: Id, y: Id, z: Id)
    requires TwoRootsOneChild(db, x, y, z)
    ensures UpdateResult(db, x, MovePayload(Some(z))).parentId == Some(z)
    ensures UpdateResult(db, x, MovePayload(Some(z))).ancestors == [z]
  {
    RootHasNoAncestors(db, z);
    MovedUnderRoot(db, x, z);
  }

  /** The hook derives for a record moved under a record without ancestors the ancestors `[z]`. */
  lemma MovedUnderRoot(db: Db, x: Id, z: Id)
    requires KeysMatchIds(db) && x in db && z in db && x != z && db[z].ancestors == []
    ensures UpdateResult(db, x, MovePayload(Some(z))).parentId == Some(z)
    ensures UpdateResult(db, x, MovePayload(Some(z))).ancestors == [z]
  {
    var p := MovePayload(Some(z));
    UpdateResultDerived(db, x, p);
    var e := Shifted(db, x, p)[x := Applied(db, x, p)];
    assert e[z] == db[z];
    ChildOfRoot(HookSlug(Applied(db, x, p)), e, z);
  }

  /** A root whose tree fields are current has no ancestors. */
  lemma RootHasNoAncestors(db: Db, z: Id)
    requires Consistent(db) && z in db && db[z].parentId.None?
    ensures db[z].ancestors == []
  {
    assert CurrentAt(db, z);
    TreeFieldsRoot(db[z], db);
  }

  /** A record placed under a root without ancestors gets that root as its only ancestor. */
  lemma ChildOfRoot(doc: Category, db: Db, z: Id)
    requires doc.parentId == Some(z) && z in db && db[z].ancestors == []
    ensures TreeFields(doc, db).ancestors == [z]
  {
    TreeFieldsChild(doc, db);
  }

  /** Moving the root `x` under the other root `z` is accepted, gives `x` the ancestors `[z]`, and leaves `y` stale. */
  lemma FirstMove(db: Db, x: Id, y: Id, z: Id)
    requires TwoRootsOneChild(db, x, y, z)
    ensures Moved(db, x, Some(z)).1.Success?
    ensures var db1 := Moved(db, x, Some(z)).0;
      && KeysMatchIds(db1) && SlugsOk(db1) && db1.Keys == db.Keys
      && db1[x].parentId == Some(z) && db1[y] == db[y] && db1[y].ancestors == [x]
      && !TreeFieldsCurrent(db1)
  {
    FirstMoveAccepted(db, x, y, z);
    FirstMoveStores(db, x, y, z);
    FirstMoveStale(db, x, y, z);
  }

  /** The first move stores the moved `x` under `z` and leaves every key, slug and `y` as they were. */
  lemma FirstMoveStores(db: Db, x: Id, y: Id, z: Id)
    requires TwoRootsOneChild(db, x, y, z)
    ensures var db1 := Moved(db, x, Some(z)).0;
      && KeysMatchIds(db1) && SlugsOk(db1) && db1.Keys == db.Keys
      && db1[x].parentId == Some(z) && db1[y] == db[y]
  {
    FirstMoveAccepted(db, x, y, z);
    FirstMoveRecord(db, x, y, z);
    MoveStores(db, x, y, Some(z));
  }

  /** An accepted move changes only the moved record, keeps the slugs unique and normal and stores the new parent link. */
  lemma MoveStores(db: Db, x: Id, y: Id, q: Option<Id>)
    requires KeysMatchIds(db) && SlugsOk(db) && y in db && x != y
    requires Moved(db, x, q).1.Success? && UpdateResult(db, x, MovePayload(q)).parentId == q
    ensures var db1 := Moved(db, x, q).0;
      && KeysMatchIds(db1) && SlugsOk(db1) && db1.Keys == db.Keys
      && db1[x].parentId == q && db1[y] == db[y]
  {
    var p := MovePayload(q);
    UpdatedReplaces(db, x, p);
    assert Shifted(db, x, p) == db;
    UpdatedIsAtomic(db, x, p);
    UpdatedKeepsSlugs(db, x, p);
  }

  /** After the first move `y` still stores the ancestors `[x]`, which are no longer current. */
  lemma FirstMoveStale(db: Db, x: Id, y: Id, z: Id)
    requires TwoRootsOneChild(db, x, y, z)
    ensures var db1 := Moved(db, x, Some(z)).0;
      && y in db1 && db1[y].ancestors == [x] && !TreeFieldsCurrent(db1)
  {
    var p := MovePayload(Some(z));
    FirstMoveAccepted(db, x, y, z);
    FirstMoveRecord(db, x, y, z);
    FirstMoveStores(db, x, y, z);
    UpdatedReplaces(db, x, p);
    assert CurrentAt(db, x) && CurrentAt(db, y);
    TreeFieldsRoot(db[x], db);
    TreeFieldsChild(db[y], db);
    MoveWithChildMakesStale(db, x, p, y);
  }

  /**
   * The parent check trusts stored ancestors: when `y` stores `[x]` but its
   * real chain runs on through `x` to `z`, moving `z` under `y` is accepted
   * and closes the cycle `z -> y -> x -> z`.
   */
  lemma SecondMove(db1: Db, x: Id, y: Id, z: Id)
    requires KeysMatchIds(db1) && SlugsOk(db1)
    requires x in db1 && y in db1 && z in db1 && x != y && y != z && x != z
    requires db1[x].parentId == Some(z) && db1[y].parentId == Some(x) && db1[y].ancestors == [x]
    ensures Moved(db1, z, Some(y)).1.Success?
    ensures Up(Moved(db1, z, Some(y)).0, z, 3) == Some(z)
    ensures !Acyclic(Moved(db1, z, Some(y)).0)
  {
    var p := MovePayload(Some(y));
    ParentCheckPasses(db1, Some(y), Some(z));
    UpdateSucceeds(db1, z, p);
    UpdatedIsAtomic(db1, z, p);
    UpdatedReplaces(db1, z, p);
    UpdateResultDerived(db1, z, p);
    var db2 := Moved(db1, z, Some(y)).0;
    assert db2[z].parentId == Some(y);
    assert db2[y].parentId == Some(x) && db2[x].parentId == Some(z) by {
      MadeRoomKeepsRecords(db1, TargetParent(db1, z, p), p.sortOrder, Some(z));
    }
    assert Up(db2, x, 1) == Some(z);
    assert Up(db2, y, 2) == Some(z);
    assert Up(db2, z, 3) == Some(z);
  }

  /**
   * Two accepted moves turn a consistent, acyclic collection into one with
   * a cycle: first the root `x` goes under `z`, then `z` goes under `x`'s
   * child `y`.
   */
  lemma StaleAncestorsLetCycleClose(db: Db, x: Id, y: Id, z: Id)
    requires TwoRootsOneChild(db, x, y, z)
    ensures Acyclic(db)
    ensures Moved(db, x, Some(z)).1.Success?
    ensures Moved(Moved(db, x, Some(z)).0, z, Some(y)).1.Success?
    ensures !Acyclic(Moved(Moved(db, x, Some(z)).0, z, Some(y)).0)
  {
    ConsistentAcyclic(db);
    FirstMove(db, x, y, z);
    SecondMove(Moved(db, x, Some(z)).0, x, y, z);
  }

  /*
   * ---------- a concrete collection ----------
   * The members from here to `SampleIsTwoRootsOneChild` only build the
   * three-record sample and check its shape for `SampleCycle`; they model no
   * operation of the source.
   */

  /** "Electronics" (root, slug "e"), "Phones" under it (slug "p") and "Books" (root, slug "b"), with their derived tree fields. */
  function SampleCollection(): Db {
    map[0 := Category(0, "Electronics", "e", None, None, "/e", 0, [], Some(1), true),
        1 := Category(1, "Phones", "p", None, Some(0), "/e/p", 1, [0], Some(1), true),
        2 := Category(2, "Books", "b", None, None, "/b", 0, [], Some(2), true)]
  }

  /** A stored child whose level, ancestors and slash-free path extend its parent's is current. */
  lemma ChildStoredCurrent(db: Db, x: Id, p: Id)
    requires x in db && p in db && db[x].parentId == Some(p)
    requires db[x].level == db[p].level + 1 && db[x].ancestors == db[p].ancestors + [p]
    requires db[x].path == db[p].path + "/" + db[x].slug && NoDoubleSlash(db[x].path)
    ensures CurrentAt(db, x)
  {
    CollapseSlashesFixed(db[x].path);
  }

  /** A stored root with level 0, no ancestors and a slash-free path "/slug" is current. */
  lemma RootStoredCurrent(db: Db, x: Id)
    requires x in db && db[x].parentId.None?
    requires db[x].level == 0 && db[x].ancestors == []
    requires db[x].path == "/" + db[x].slug && NoDoubleSlash(db[x].path)
    ensures CurrentAt(db, x)
  {
    CollapseSlashesFixed(db[x].path);
  }

  /** A collection of the records 0, 1 and 2 is current when each of them is. */
  lemma ThreeCurrent(db: Db)
    requires db.Keys == {0, 1, 2}
    requires CurrentAt(db, 0) && CurrentAt(db, 1) && CurrentAt(db, 2)
    ensures TreeFieldsCurrent(db)
  {
    forall k | k in db
      ensures CurrentAt(db, k)
    {
      if k == 0 {
      } else if k == 1 {
      } else {
        assert k == 2;
      }
    }
  }

  lemma SampleCurrent0()
    ensures 0 in SampleCollection() && CurrentAt(SampleCollection(), 0)
  {
    var db := SampleCollection();
    assert db[0].path == "/" + db[0].slug;
    RootStoredCurrent(db, 0);
  }

  lemma SampleCurrent1()
    ensures 1 in SampleCollection() && CurrentAt(SampleCollection(), 1)
  {
    var db := SampleCollection();
    assert db[1].path == db[0].path + "/" + db[1].slug;
    ChildStoredCurrent(db, 1, 0);
  }

  lemma SampleCurrent2()
    ensures 2 in SampleCollection() && CurrentAt(SampleCollection(), 2)
  {
    var db := SampleCollection();
    assert db[2].path == "/" + db[2].slug;
    RootStoredCurrent(db, 2);
  }

  /** Every record of the sample stores the tree fields derived from its parent. */
  lemma SampleIsCurrent()
    ensures TreeFieldsCurrent(SampleCollection())
  {
    SampleCurrent0();
    SampleCurrent1();
    SampleCurrent2();
    ThreeCurrent(SampleCollection());
  }

  /** Three records with distinct normal slugs have unique normal slugs. */
  lemma ThreeSlugsOk(db: Db)
    requires db.Keys == {0, 1, 2}
    requires IsNormalSlug(db[0].slug) && IsNormalSlug(db[1].slug) && IsNormalSlug(db[2].slug)
    requires db[0].slug != db[1].slug && db[1].slug != db[2].slug && db[0].slug != db[2].slug
    ensures SlugsOk(db)
  {
    assert forall k :: k in db ==> k == 0 || k == 1 || k == 2;
  }

  /** The sample's slugs are distinct and in normal form. */
  lemma SampleSlugsOk()
    ensures SlugsOk(SampleCollection())
  {
    var db := SampleCollection();
    assert IsNormalSlug("e") && IsNormalSlug("p") && IsNormalSlug("b");
    ThreeSlugsOk(db);
  }

  /** Records 0, 1 and 2 stored under their own ids, with 1 under 0 and the others roots, have no dangling parent. */
  lemma ThreeLinked(db: Db)
    requires db.Keys == {0, 1, 2} && db[0].id == 0 && db[1].id == 1 && db[2].id == 2
    requires db[0].parentId.None? && db[1].parentId == Some(0) && db[2].parentId.None?
    ensures KeysMatchIds(db) && NoDangling(db)
  {
    assert forall k :: k in db ==> k == 0 || k == 1 || k == 2;
  }

  /** Such records, when current and with unique normal slugs, have the scenario's shape. */
  lemma ThreeShaped(db: Db)
    requires db.Keys == {0, 1, 2} && db[0].id == 0 && db[1].id == 1 && db[2].id == 2
    requires db[0].parentId.None? && db[1].parentId == Some(0) && db[2].parentId.None?
    requires TreeFieldsCurrent(db) && SlugsOk(db)
    ensures TwoRootsOneChild(db, 0, 1, 2)
  {
    ThreeLinked(db);
  }

  /** The sample stores each record under its id, "Phones" under the root "Electronics", and "Books" as a root. */
  lemma SampleLinks()
    ensures var db := SampleCollection();
      && db.Keys == {0, 1, 2} && db[0].id == 0 && db[1].id == 1 && db[2].id == 2
      && db[0].parentId.None? && db[1].parentId == Some(0) && db[2].parentId.None?
  {
  }

  /** The sample collection is consistent and has the shape of the scenario above. */
  lemma SampleIsTwoRootsOneChild()
    ensures TwoRootsOneChild(SampleCollection(), 0, 1, 2)
  {
    SampleLinks();
    SampleIsCurrent();
    SampleSlugsOk();
    ThreeShaped(SampleCollection());
  }

  /** Moving "Electronics" under "Books" and then "Books" under "Phones" is accepted and leaves a cycle. */
  lemma SampleCycle()
    ensures Moved(SampleCollection(), 0, Some(2)).1.Success?
    ensures Moved(Moved(SampleCollection(), 0, Some(2)).0, 2, Some(1)).1.Success?
    ensures !Acyclic(Moved(Moved(SampleCollection(), 0, Some(2)).0, 2, Some(1)).0)
  {
    SampleIsTwoRootsOneChild();
    StaleAncestorsLetCycleClose(SampleCollection(), 0, 1, 2);
  }
}
