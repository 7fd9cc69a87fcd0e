/**
 * The category record (src/app/modules/category/category.interface.ts) and the
 * collection that stores it: a table from ids to records.  Ids are abstract
 * naturals; a new record receives an id larger than every id in use, as
 * MongoDB ObjectIds grow with creation time, so ascending id order is the
 * collection's natural (insertion) order.
 */
module CategoryTypes {
  import opened Wrappers

  type Id = nat

  /**
   * One stored category.  `level`, `path` and `ancestors` are the denormalised
   * tree fields: what the record *stores*, which need not agree with the real
   * chain of `parentId` links (see module CategoryHierarchy).
   */
  datatype Category = Category(
    id: Id,
    name: string,
    slug: string,
    icon: Option<string>,
    parentId: Option<Id>,
    path: string,
    level: int,
    ancestors: seq<Id>,
    sortOrder: Option<int>,
    isActive: bool)

  /** The categories collection. */
  type Db = map<Id, Category>

  /** The errors the core raises (AppError messages and MongoDB/Mongoose failures). */
  datatype Error =
    | NotFound          // "Category not found" (404)
    | ParentNotFound    // "Parent category not found" (400)
    | OwnParent         // "Category cannot be its own parent" (400)
    | OwnSubtree        // "Cannot move under its own subtree" (400)
    | HasChildren       // "Cannot hard-delete: category has children" (400)
    | RequiredMissing   // Mongoose validation: a required field (name, slug) is empty
    | DuplicateSlug     // MongoDB unique index on slug (E11000)
    | NegativeSkip      // MongoDB rejects a negative skip

  /** The Mongoose model `Category`: the collection, updated in place by the hooks and services. */
  class CategoryCollection {
    var docs: Db

    constructor ()
      ensures docs == map[]
    {
      docs := map[];
    }
  }

  /** Every key of the table names the record stored under it. */
  ghost predicate KeysMatchIds(db: Db) {
    forall k :: k in db ==> db[k].id == k
  }

  lemma MaxExists(s: set<Id>)
    requires s != {}
    ensures exists m :: m in s && forall k :: k in s ==> k <= m
  {
    var x :| x in s;
    if s - {x} != {} {
      MaxExists(s - {x});
      var m :| m in s - {x} && forall k :: k in s - {x} ==> k <= m;
      var top := if x > m then x else m;
      forall k | k in s ensures k <= top {
        if k != x { assert k in s - {x}; }
      }
    } else {
      assert s == {x};
    }
  }

  /** The id a new record receives: one more than the largest id in use. */
  function FreshId(db: Db): (r: Id)
    ensures forall k :: k in db ==> k < r
    ensures r !in db
  {
    if db.Keys == {} then 0
    else
      MaxExists(db.Keys);
      var m :| m in db.Keys && forall k :: k in db.Keys ==> k <= m;
      m + 1
  }

  /** The ids of `db` below `n`, ascending. */
  function IdsBelow(db: Db, n: nat): (ids: seq<Id>)
    ensures forall i, j :: 0 <= i < j < |ids| ==> ids[i] < ids[j]
    ensures forall k :: k in ids <==> k in db && k < n
  {
    if n == 0 then []
    else
      var lower := IdsBelow(db, n - 1);
      var ids := lower + (if n - 1 in db then [n - 1] else []);
      assert forall i :: 0 <= i < |lower| ==> lower[i] in lower;
      ids
  }

  /** All ids of the collection in natural order, each exactly once. */
  function NaturalOrder(db: Db): (ids: seq<Id>)
    ensures forall i, j :: 0 <= i < j < |ids| ==> ids[i] < ids[j]
    ensures forall k :: k in ids <==> k in db
  {
    IdsBelow(db, FreshId(db))
  }

  /** The records of the collection in natural order. */
  function Records(db: Db): (rs: seq<Category>)
    ensures |rs| == |NaturalOrder(db)|
    ensures forall i :: 0 <= i < |rs| ==> NaturalOrder(db)[i] in db && rs[i] == db[NaturalOrder(db)[i]]
  {
    var ids := NaturalOrder(db);
    seq(|ids|, i requires 0 <= i < |ids| => db[ids[i]])
  }

  /** Every record of the collection occurs in `Records`, and only those. */
  lemma RecordsAreTheCollection(db: Db)
    ensures forall k :: k in db ==> db[k] in Records(db)
    ensures forall r :: r in Records(db) ==> exists k :: k in db && db[k] == r
  {
    var ids := NaturalOrder(db);
    var rs := Records(db);
    forall k | k in db ensures db[k] in rs {
      var i :| 0 <= i < |ids| && ids[i] == k;
      assert rs[i] == db[k];
    }
  }

  /** With ids matching keys, no two entries of `Records` share an id. */
  lemma RecordIdsDistinct(db: Db)
    requires KeysMatchIds(db)
    ensures forall i, j :: 0 <= i < j < |Records(db)| ==> Records(db)[i].id != Records(db)[j].id
  {
  }
}
