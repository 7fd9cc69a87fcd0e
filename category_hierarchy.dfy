/**
 * The hierarchy the services maintain, stated over the *real* parent chain
 * (the `parentId` links) as distinct from what each record *stores* in its
 * `level`, `path` and `ancestors`.
 *
 * The parent check of src/app/modules/category/category.services.ts trusts
 * the stored `ancestors`.  When every record's stored ancestors are its real
 * chain, an accepted update cannot close a cycle.  But the post hook of
 * findOneAndUpdate re-derives only the updated record, so moving a record
 * that has children leaves the children's stored fields stale, and after
 * that the parent check can accept a move that closes a cycle.
 */
module CategoryHierarchy {
  import opened Wrappers
  import opened CategoryTypes
  import opened CategoryTree
  import opened CategoryModel
  import opened CategoryService

  /* ---------- the real parent chain ---------- */

  /** The parent link of `x` when it names a record of the collection. */
  function ParentOf(db: Db, x: Id): Option<Id> {
    if x in db && db[x].parentId.Some? && db[x].parentId.value in db then db[x].parentId else None
  }

  /** The record `n` parent links above `x`, or `None` once the chain has ended. */
  function Up(db: Db, x: Id, n: nat): Option<Id>
    decreases n
  {
    if n == 0 then Some(x)
    else
      match ParentOf(db, x)
      case None => None
      case Some(p) => Up(db, p, n - 1)
  }

  /** No record is its own ancestor along the parent links. */
  ghost predicate Acyclic(db: Db) {
    forall x, n :: x in db && n > 0 ==> Up(db, x, n) != Some(x)
  }

  /**
   * The stored ancestors of `x`, root first, are exactly its real chain:
   * the i-th entry is |ancestors| - i links up, and the chain ends right
   * after the root.
   */
  ghost predicate StoredChainIsReal(db: Db, x: Id)
    requires x in db
  {
    var a := db[x].ancestors;
    (forall i :: 0 <= i < |a| ==> Up(db, x, |a| - i) == Some(a[i])) && Up(db, x, |a| + 1) == None
  }

  ghost predicate ChainExact(db: Db) {
    forall x :: x in db ==> StoredChainIsReal(db, x)
  }

  /** Every parent link names a record of the collection. */
  ghost predicate NoDangling(db: Db) {
    forall x :: x in db && db[x].parentId.Some? ==> db[x].parentId.value in db
  }

  /** Every record's stored tree fields are those derived from its parent's stored fields. */
  ghost predicate TreeFieldsCurrent(db: Db) {
    forall x :: x in db ==> CurrentAt(db, x)
  }

  /** Record `x` stores the tree fields derived from its parent's stored fields. */
  ghost predicate CurrentAt(db: Db, x: Id)
    requires x in db
  {
    db[x] == TreeFields(db[x], db)
  }

  /** The state the services are meant to keep. */
  ghost predicate Consistent(db: Db) {
    KeysMatchIds(db) && NoDangling(db) && TreeFieldsCurrent(db)
  }

  /* ---------- walking the chain ---------- */

  /** Walking `a + b` links is walking `a` links and then `b` more. */
  lemma {:induction false} UpAdd(db: Db, x: Id, a: nat, b: nat)
    ensures Up(db, x, a + b) == if Up(db, x, a).None? then None else Up(db, Up(db, x, a).value, b)
    decreases a
  {
    if a > 0 {
      match ParentOf(db, x)
      case None =>
      case Some(p) =>
        UpAdd(db, p, a - 1, b);
        assert a + b - 1 == (a - 1) + b;
    }
  }

  /** Once the chain has ended it stays ended. */
  lemma UpStaysEnded(db: Db, x: Id, m: nat, m': nat)
    requires m <= m' && Up(db, x, m) == None
    ensures Up(db, x, m') == None
  {
    UpAdd(db, x, m, m' - m);
  }

  /** A chain that returns to `x` after `n` links returns to it after every multiple of `n`. */
  lemma {:induction false} UpPeriodic(db: Db, x: Id, n: nat, k: nat)
    requires Up(db, x, n) == Some(x)
    ensures Up(db, x, k * n) == Some(x)
  {
    if k > 0 {
      UpPeriodic(db, x, n, k - 1);
      UpAdd(db, x, (k - 1) * n, n);
      assert (k - 1) * n + n == k * n;
    }
  }

  /** A chain that ends does not pass through its start again. */
  lemma EndedChainHasNoCycle(db: Db, x: Id, m: nat, n: nat)
    requires Up(db, x, m) == None && n > 0
    ensures Up(db, x, n) != Some(x)
  {
    if Up(db, x, n) == Some(x) {
      UpPeriodic(db, x, n, m);
      assert m * n == m * (n - 1) + m;
      UpStaysEnded(db, x, m, m * n);
    }
  }

  /** Stored ancestors that are the real chains rule out cycles. */
  lemma ChainExactAcyclic(db: Db)
    requires ChainExact(db)
    ensures Acyclic(db)
  {
    forall x, n | x in db && n > 0 ensures Up(db, x, n) != Some(x) {
      EndedChainHasNoCycle(db, x, |db[x].ancestors| + 1, n);
    }
  }

  /** The part of `TreeFieldsCurrent` about levels and ancestors. */
  ghost predicate DepthCurrent(db: Db) {
    forall x :: x in db ==>
      if db[x].parentId.Some? && db[x].parentId.value in db then
        && db[x].ancestors == db[db[x].parentId.value].ancestors + [db[x].parentId.value]
        && db[x].level == db[db[x].parentId.value].level + 1
      else db[x].ancestors == [] && db[x].level == 0
  }

  lemma CurrentDepth(db: Db)
    requires TreeFieldsCurrent(db)
    ensures DepthCurrent(db)
  {
    forall x | x in db
      ensures if db[x].parentId.Some? && db[x].parentId.value in db then
        && db[x].ancestors == db[db[x].parentId.value].ancestors + [db[x].parentId.value]
        && db[x].level == db[db[x].parentId.value].level + 1
      else db[x].ancestors == [] && db[x].level == 0
    {
      assert CurrentAt(db, x);
      if db[x].parentId.Some? && db[x].parentId.value in db {
        TreeFieldsChild(db[x], db);
      } else {
        TreeFieldsRoot(db[x], db);
      }
    }
  }

  /**
   * Local agreement is enough: when every record's ancestors and level are
   * derived from its parent, each record's stored ancestors are its real
   * chain (the length of the ancestor list decreases up the chain).
   */
  lemma {:induction false} CurrentChainAt(db: Db, x: Id)
    requires DepthCurrent(db)
    requires x in db
    ensures StoredChainIsReal(db, x)
    ensures db[x].level == |db[x].ancestors|
    decreases |db[x].ancestors|
  {
    if db[x].parentId.Some? && db[x].parentId.value in db {
      var p := db[x].parentId.value;
      var a := db[x].ancestors;
      var b := db[p].ancestors;
      assert a == b + [p];
      CurrentChainAt(db, p);
      assert ParentOf(db, x) == Some(p);
      forall i | 0 <= i < |a| ensures Up(db, x, |a| - i) == Some(a[i]) {
        assert Up(db, x, |a| - i) == Up(db, p, |b| - i);
        if i < |b| {
          assert a[i] == b[i];
        }
      }
      assert Up(db, x, |a| + 1) == Up(db, p, |b| + 1);
    } else {
      assert ParentOf(db, x) == None;
    }
  }

  lemma ConsistentChainExact(db: Db)
    requires Consistent(db)
    ensures ChainExact(db)
    ensures forall x :: x in db ==> db[x].level == |db[x].ancestors|
  {
    CurrentDepth(db);
    forall x | x in db ensures StoredChainIsReal(db, x) && db[x].level == |db[x].ancestors| {
      CurrentChainAt(db, x);
    }
  }

  /** A consistent collection has no cycles. */
  lemma ConsistentAcyclic(db: Db)
    requires Consistent(db)
    ensures Acyclic(db)
  {
    ConsistentChainExact(db);
    ChainExactAcyclic(db);
  }

  /* ---------- changing one parent link ---------- */

  /** `db2` has the same records as `db` and changes no parent link but that of `id`. */
  ghost predicate RelinksOnly(db: Db, db2: Db, id: Id) {
    db2.Keys == db.Keys && forall k :: k in db && k != id ==> db2[k].parentId == db[k].parentId
  }

  /** A chain that avoids `id` is the same after `id`'s link changes. */
  lemma {:induction false} UpAvoidingSame(db: Db, db2: Db, id: Id, x: Id, n: nat)
    requires RelinksOnly(db, db2, id)
    requires forall j :: 0 <= j < n ==> Up(db, x, j) != Some(id)
    ensures Up(db2, x, n) == Up(db, x, n)
    decreases n
  {
    if n > 0 {
      assert Up(db, x, 0) != Some(id);
      assert ParentOf(db2, x) == ParentOf(db, x);
      match ParentOf(db, x)
      case None =>
      case Some(p) =>
        forall j | 0 <= j < n - 1 ensures Up(db, p, j) != Some(id) {
          assert Up(db, x, j + 1) == Up(db, p, j);
        }
        UpAvoidingSame(db, db2, id, p, n - 1);
    }
  }

  /** A chain that ended before the change still ends, provided the chain from `id` ends after it. */
  lemma {:induction false} RelinkedChainEnds(db: Db, db2: Db, id: Id, kid: nat, x: Id, m: nat)
    requires RelinksOnly(db, db2, id)
    requires Up(db2, id, kid) == None
    requires Up(db, x, m) == None
    ensures exists k: nat :: Up(db2, x, k) == None
    decreases m
  {
    if x == id {
    } else {
      assert ParentOf(db2, x) == ParentOf(db, x);
      match ParentOf(db, x)
      case None =>
        assert Up(db2, x, 1) == None;
      case Some(p) =>
        assert Up(db, p, m - 1) == None;
        RelinkedChainEnds(db, db2, id, kid, p, m - 1);
        var k: nat :| Up(db2, p, k) == None;
        assert Up(db2, x, k + 1) == None;
    }
  }

  /**
   * Re-linking `id` under a parent `t` that passes the parent check cannot
   * close a cycle, *provided* the stored ancestors are the real chains: the
   * check then sees every record above `t`, and `id` is not among them.
   */
  lemma RelinkKeepsAcyclic(db: Db, db2: Db, id: Id, t: Option<Id>)
    requires KeysMatchIds(db) && ChainExact(db)
    requires id in db
    requires RelinksOnly(db, db2, id) && db2[id].parentId == t
    requires ParentCheck(db, t, Some(id)).Pass?
    ensures Acyclic(db2)
  {
    var kid: nat := 1;
    if t.Some? {
      var a := db[t.value].ancestors;
      assert StoredChainIsReal(db, t.value);
      forall j | 0 <= j < |a| + 1 ensures Up(db, t.value, j) != Some(id) {
        if j > 0 {
          assert Up(db, t.value, |a| - (|a| - j)) == Some(a[|a| - j]);
        }
      }
      UpAvoidingSame(db, db2, id, t.value, |a| + 1);
      assert ParentOf(db2, id) == t;
      kid := |a| + 2;
      assert Up(db2, id, kid) == Up(db2, t.value, |a| + 1);
    } else {
      assert ParentOf(db2, id) == None;
    }
    forall x, n | x in db2 && n > 0 ensures Up(db2, x, n) != Some(x) {
      assert StoredChainIsReal(db, x);
      RelinkedChainEnds(db, db2, id, kid, x, |db[x].ancestors| + 1);
      var k: nat :| Up(db2, x, k) == None;
      EndedChainHasNoCycle(db2, x, k, n);
    }
  }

  /** An accepted update only re-links the updated record, under the target parent. */
  lemma UpdatedRelinksOnly(db: Db, id: Id, p: UpdatePayload)
    requires KeysMatchIds(db)
    requires Updated(db, id, p).1.Success?
    ensures id in db
    ensures RelinksOnly(db, Updated(db, id, p).0, id)
    ensures Updated(db, id, p).0[id].parentId == TargetParent(db, id, p)
    ensures ParentCheck(db, TargetParent(db, id, p), Some(id)).Pass?
  {
    UpdatedSteps(db, id, p);
    UpdatedParent(db, id, p);
    var t := TargetParent(db, id, p);
    MadeRoomKeepsRecords(db, t, p.sortOrder, Some(id));
  }

  /**
   * When every record's stored ancestors are its real chain, an update (a
   * move, a reorder, a rename) that the service accepts leaves the parent
   * links acyclic.
   */
  lemma AcceptedUpdateKeepsAcyclic(db: Db, id: Id, p: UpdatePayload)
    requires KeysMatchIds(db) && ChainExact(db)
    requires Updated(db, id, p).1.Success?
    ensures Acyclic(Updated(db, id, p).0)
  {
    UpdatedRelinksOnly(db, id, p);
    RelinkKeepsAcyclic(db, Updated(db, id, p).0, id, TargetParent(db, id, p));
  }

  /** The same for moveCategory. */
  lemma AcceptedMoveKeepsAcyclic(db: Db, id: Id, newParentId: Option<Id>)
    requires KeysMatchIds(db) && ChainExact(db)
    requires Moved(db, id, newParentId).1.Success?
    ensures Acyclic(Moved(db, id, newParentId).0)
  {
    AcceptedUpdateKeepsAcyclic(db, id, UpdatePayload(None, None, None, Some(newParentId), None, None));
  }
}
