/**
 * The read operations of the category service: getCategoryById,
 * getCategoryBySlug, the paginated listCategories, and getCategoryTree, which
 * builds the forest in memory.
 */
module CategoryReads {
  import opened Wrappers
  import opened CategoryTypes
  import opened CategoryModel
  import opened CategoryService
  import opened CategoryHierarchy
  import opened CategoryOrdering

  /** `Records` holds exactly the stored records. */
  lemma RecordsAreValues(db: Db)
    ensures forall c :: c in Records(db) <==> c in db.Values
  {
    RecordsAreTheCollection(db);
  }

  /* ---------- getCategoryById, getCategoryBySlug ---------- */

  /** `findById(id)`: the record, or "Category not found". */
  function FoundById(db: Db, id: Id): (r: Result<Category, Error>)
    ensures r.Success? <==> id in db
    ensures r.Success? ==> r.value == db[id]
    ensures r.Failure? ==> r.error == NotFound
  {
    if id in db then Success(db[id]) else Failure(NotFound)
  }

  /** The first record of `rs` with slug `slug`. */
  function FirstWithSlug(rs: seq<Category>, slug: string): (r: Option<nat>)
    ensures r.None? <==> forall i :: 0 <= i < |rs| ==> rs[i].slug != slug
    ensures r.Some? ==> r.value < |rs| && rs[r.value].slug == slug
                        && forall i :: 0 <= i < r.value ==> rs[i].slug != slug
  {
    if rs == [] then None
    else if rs[0].slug == slug then Some(0)
    else
      var rest := FirstWithSlug(rs[1..], slug);
      if rest.None? then None else Some(rest.value + 1)
  }

  /** `findOne({slug})`: the first record in natural order holding the slug, or "Category not found". */
  function FoundBySlug(db: Db, slug: string): (r: Result<Category, Error>)
    ensures r.Success? ==> r.value.slug == slug && r.value in db.Values
    ensures r.Failure? <==> forall k :: k in db ==> db[k].slug != slug
    ensures r.Failure? ==> r.error == NotFound
  {
    var rs := Records(db);
    RecordsAreValues(db);
    var i := FirstWithSlug(rs, slug);
    if i.None? then
      assert forall k :: k in db ==> db[k] in db.Values;
      Failure(NotFound)
    else
      assert rs[i.value] in rs;
      Success(rs[i.value])
  }

  /** A record whose slug no other record holds is what the slug finds. */
  lemma FoundBySlugOnly(db: Db, k: Id)
    requires k in db
    requires forall j :: j in db && j != k ==> db[j].slug != db[k].slug
    ensures FoundBySlug(db, db[k].slug) == Success(db[k])
  {
    var r := FoundBySlug(db, db[k].slug);
    assert db[k] in db.Values;
    var j :| j in db && db[j] == r.value;
  }

  /** With unique slugs, every record is found by its slug. */
  lemma FoundBySlugUnique(db: Db, k: Id)
    requires SlugsUnique(db) && k in db
    ensures FoundBySlug(db, db[k].slug) == Success(db[k])
  {
    FoundBySlugOnly(db, k);
  }

  /** A record stored under its id, with a slug no record held, is found by both. */
  lemma StoredIsFound(db: Db, r: Category)
    requires !SlugTaken(db, r.slug, None)
    ensures FoundById(db[r.id := r], r.id) == Success(r)
    ensures FoundBySlug(db[r.id := r], r.slug) == Success(r)
  {
    var db2 := db[r.id := r];
    forall j | j in db2 && j != r.id
      ensures db2[j].slug != r.slug
    {
      assert db2[j] == db[j];
    }
    FoundBySlugOnly(db2, r.id);
  }

  /** A created record is found by its id and by its slug. */
  lemma CreatedIsFound(db: Db, p: CreatePayload)
    requires Created(db, p).1.Success?
    ensures FoundById(Created(db, p).0, Created(db, p).1.value.id) == Created(db, p).1
    ensures FoundBySlug(Created(db, p).0, Created(db, p).1.value.slug) == Created(db, p).1
  {
    var db1 := MadeRoom(db, p.parentId, p.sortOrder, None);
    var doc := NewDocument(db1, p.name, p.slug, p.icon, p.parentId, p.sortOrder, p.isActive.GetOr(true));
    CreatedSteps(db, p);
    InsertedKeepsId(db1, doc);
    InsertedRecord(db1, doc);
    StoredIsFound(db1, Inserted(db1, doc).value);
  }

  /** A hard-deleted record is no longer found. */
  lemma HardDeletedIsGone(db: Db, id: Id)
    requires Deleted(db, id, true).1.Success? && Deleted(db, id, true).1.value.deleted
    ensures FoundById(Deleted(db, id, true).0, id) == Failure(NotFound)
  {
  }

  /* ---------- listCategories ---------- */

  /** The filter of listCategories: the parent (null for the roots), `isActive` when given, a non-empty search. */
  datatype ListFilter = ListFilter(parentId: Option<Id>, search: Option<string>, isActive: Option<bool>)

  /**
   * `c` passes the filter; `nameMatches(search, name)` stands for the
   * case-insensitive regular expression match on the name.
   */
  predicate Matches(f: ListFilter, nameMatches: (string, string) -> bool, c: Category) {
    && c.parentId == f.parentId
    && (f.isActive.Some? ==> c.isActive == f.isActive.value)
    && (f.search.Some? && f.search.value != [] ==> nameMatches(f.search.value, c.name))
  }

  /** The records of `rs` that pass the filter, in the order of `rs`. */
  function Matching(rs: seq<Category>, f: ListFilter, nameMatches: (string, string) -> bool): (r: seq<Category>)
    ensures |r| <= |rs|
    ensures forall c :: c in r <==> c in rs && Matches(f, nameMatches, c)
  {
    if rs == [] then []
    else
      var rest := Matching(rs[1..], f, nameMatches);
      assert rs == [rs[0]] + rs[1..];
      if Matches(f, nameMatches, rs[0]) then [rs[0]] + rest else rest
  }

  /** The options of listCategories; an absent one takes its default. */
  datatype ListOptions = ListOptions(
    parentId: Option<Id>,
    search: Option<string>,
    isActive: Option<bool>,
    page: Option<int>,
    limit: Option<int>,
    sort: Option<SortKey>)

  /** The response: the page and limit used, the number of matching records, and the records of the page. */
  datatype ListPage = ListPage(page: int, limit: int, total: nat, items: seq<Category>)

  function Abs(n: int): nat {
    if n < 0 then -n else n
  }

  /**
   * `skip(skip).limit(limit)` on a cursor over `s`: drop `skip` records, then
   * keep at most |limit| of them, all when the limit is 0.
   */
  function Window(s: seq<Category>, skip: nat, limit: int): (w: seq<Category>)
    ensures skip >= |s| ==> w == []
    ensures skip < |s| ==> |w| == (if limit == 0 || |s| - skip <= Abs(limit) then |s| - skip else Abs(limit))
    ensures forall i :: 0 <= i < |w| ==> skip + i < |s| && w[i] == s[skip + i]
  {
    var from := if skip < |s| then skip else |s|;
    var n := if limit == 0 || |s| - from <= Abs(limit) then |s| - from else Abs(limit);
    s[from..from + n]
  }

  /** The matching records of the collection in the requested order. */
  function ListOrder(db: Db, f: ListFilter, nameMatches: (string, string) -> bool, key: SortKey): (s: seq<Category>)
    ensures Sorted(key, s)
    ensures forall c :: c in s <==> c in db.Values && Matches(f, nameMatches, c)
  {
    RecordsAreValues(db);
    var m := Matching(Records(db), f, nameMatches);
    var s := SortBy(key, m);
    assert forall c :: c in s <==> c in multiset(m);
    s
  }

  /** The filter the options ask for. */
  function FilterOf(opts: ListOptions): ListFilter {
    ListFilter(opts.parentId, opts.search, opts.isActive)
  }

  /** The records the options select, in the order they ask for (sortOrder by default). */
  function Selected(db: Db, opts: ListOptions, nameMatches: (string, string) -> bool): seq<Category> {
    ListOrder(db, FilterOf(opts), nameMatches, opts.sort.GetOr(SortOrder))
  }

  /**
   * listCategories: page 1, limit 20 and order by sortOrder unless given;
   * `total` counts the matching records and `items` is the window
   * `skip((page - 1) * limit).limit(limit)` of them; MongoDB refuses a
   * negative skip.
   */
  function Listed(db: Db, opts: ListOptions, nameMatches: (string, string) -> bool): Result<ListPage, Error> {
    Paged(Selected(db, opts, nameMatches), opts.page.GetOr(1), opts.limit.GetOr(20))
  }

  /** The page `page` of `s` at `limit` records a page, with the count of `s`. */
  function Paged(s: seq<Category>, page: int, limit: int): Result<ListPage, Error> {
    var skip := (page - 1) * limit;
    if skip < 0 then Failure(NegativeSkip)
    else Success(ListPage(page, limit, |s|, Window(s, skip, limit)))
  }

  function Min(a: int, b: int): int {
    if a < b then a else b
  }

  lemma PageBounds(page: int, limit: int)
    requires page >= 1 && limit > 0
    ensures 0 <= (page - 1) * limit && page * limit == (page - 1) * limit + limit
  {
  }

  /** Records `[(page-1)*limit, page*limit)` of `s`, cut at its end. */
  function PageSlice(s: seq<Category>, page: int, limit: int): (w: seq<Category>)
    requires page >= 1 && limit > 0
    ensures |w| <= limit
  {
    PageBounds(page, limit);
    s[Min((page - 1) * limit, |s|)..Min(page * limit, |s|)]
  }

  /** A page from 1 at a positive limit is the slice `[(page-1)*limit, page*limit)`, with the full count. */
  lemma PagedSlice(s: seq<Category>, page: int, limit: int)
    requires page >= 1 && limit > 0
    ensures Paged(s, page, limit) == Success(ListPage(page, limit, |s|, PageSlice(s, page, limit)))
  {
    PageBounds(page, limit);
    var skip := (page - 1) * limit;
    var w := Window(s, skip, limit);
    assert w == s[Min(skip, |s|)..Min(skip + limit, |s|)];
  }

  /** The request is refused exactly when (page - 1) * limit is negative: a page below 1 with a positive limit, or above 1 with a negative one. */
  lemma {:induction false} PagedFails(s: seq<Category>, page: int, limit: int)
    ensures Paged(s, page, limit).Failure? <==> (page < 1 && limit > 0) || (page > 1 && limit < 0)
  {
    ProductSign(page - 1, limit);
  }

  lemma ProductSign(a: int, b: int)
    ensures a * b < 0 <==> (a < 0 && b > 0) || (a > 0 && b < 0)
  {
    if a > 0 && b > 0 {
      assert a * b > 0;
    } else if a < 0 && b < 0 {
      assert a * b == (-a) * (-b);
    } else if a < 0 && b > 0 {
      assert a * b == -((-a) * b);
    } else if a > 0 && b < 0 {
      assert a * b == -(a * (-b));
    }
  }

  /** Every record of a page is one of `s`, and a page of a sorted `s` is sorted. */
  lemma PagedWithin(s: seq<Category>, page: int, limit: int, key: SortKey)
    requires Paged(s, page, limit).Success?
    ensures var w := Paged(s, page, limit).value.items;
      && (forall c :: c in w ==> c in s)
      && (Sorted(key, s) ==> Sorted(key, w))
  {
    var w := Paged(s, page, limit).value.items;
    var skip: nat := (page - 1) * limit;
    assert w == Window(s, skip, limit);
    forall c | c in w
      ensures c in s
    {
      var i :| 0 <= i < |w| && w[i] == c;
      assert s[skip + i] == c;
    }
    if Sorted(key, s) {
      forall i, j | 0 <= i < j < |w|
        ensures !Before(key, w[j], w[i])
      {
        assert w[i] == s[skip + i] && w[j] == s[skip + j];
      }
    }
  }

  /**
   * For a page from 1 and a positive limit the listing succeeds, counts every
   * matching record, and returns page `page` of them in order.
   */
  lemma ListedPage(db: Db, opts: ListOptions, nameMatches: (string, string) -> bool)
    requires opts.page.GetOr(1) >= 1 && opts.limit.GetOr(20) > 0
    ensures var s := Selected(db, opts, nameMatches);
      Listed(db, opts, nameMatches)
        == Success(ListPage(opts.page.GetOr(1), opts.limit.GetOr(20), |s|, PageSlice(s, opts.page.GetOr(1), opts.limit.GetOr(20))))
  {
    PagedSlice(Selected(db, opts, nameMatches), opts.page.GetOr(1), opts.limit.GetOr(20));
  }

  /** Without options: the first 20 root records by sortOrder, and how many roots there are. */
  lemma ListedDefaults(db: Db, nameMatches: (string, string) -> bool)
    ensures var opts := ListOptions(None, None, None, None, None, None);
      var s := Selected(db, opts, nameMatches);
      && Listed(db, opts, nameMatches) == Success(ListPage(1, 20, |s|, s[..Min(20, |s|)]))
      && Sorted(SortOrder, s)
      && forall c :: c in s <==> c in db.Values && c.parentId.None?
  {
    var opts := ListOptions(None, None, None, None, None, None);
    PagedSlice(Selected(db, opts, nameMatches), 1, 20);
  }

  /** Every listed record comes from the collection and matches the filter; the page is in the requested order. */
  lemma ListedItemsMatch(db: Db, opts: ListOptions, nameMatches: (string, string) -> bool)
    requires Listed(db, opts, nameMatches).Success?
    ensures var items := Listed(db, opts, nameMatches).value.items;
      && Sorted(opts.sort.GetOr(SortOrder), items)
      && forall c :: c in items ==> c in db.Values && Matches(FilterOf(opts), nameMatches, c)
  {
    PagedWithin(Selected(db, opts, nameMatches), opts.page.GetOr(1), opts.limit.GetOr(20), opts.sort.GetOr(SortOrder));
  }

  /** Pages `p` and `p + 1` of a listing are adjacent slices of the selected records. */
  lemma PagesAdjacent(s: seq<Category>, p: int, limit: int)
    requires p >= 1 && limit > 0
    ensures PageSlice(s, p, limit) + PageSlice(s, p + 1, limit) == s[Min((p - 1) * limit, |s|)..Min((p + 1) * limit, |s|)]
  {
    PageBounds(p, limit);
    PageBounds(p + 1, limit);
    var lo := Min((p - 1) * limit, |s|);
    var mid := Min(p * limit, |s|);
    var hi := Min((p + 1) * limit, |s|);
    assert s[lo..mid] + s[mid..hi] == s[lo..hi];
  }

  /** Page 0 with a positive limit asks for a negative skip, which MongoDB refuses. */
  lemma PageZero(s: seq<Category>, limit: int)
    requires limit > 0
    ensures Paged(s, 0, limit) == Failure(NegativeSkip)
  {
  }

  /* ---------- getCategoryTree ---------- */

  /** The records getCategoryTree loads: all, or only the active ones, by level and then sortOrder. */
  function TreeDocs(db: Db, onlyActive: bool): (docs: seq<Category>)
    ensures Sorted(LevelThenSortOrder, docs)
    ensures forall c :: c in docs <==> c in db.Values && (onlyActive ==> c.isActive)
  {
    RecordsAreValues(db);
    var m := ActiveOnly(Records(db), onlyActive);
    var s := SortBy(LevelThenSortOrder, m);
    assert forall c :: c in s <==> c in multiset(m);
    s
  }

  /** The records of `rs` kept by `match`: all, or those with `isActive` true. */
  function ActiveOnly(rs: seq<Category>, onlyActive: bool): (r: seq<Category>)
    ensures forall c :: c in r <==> c in rs && (onlyActive ==> c.isActive)
  {
    if rs == [] then []
    else
      var rest := ActiveOnly(rs[1..], onlyActive);
      assert rs == [rs[0]] + rs[1..];
      if !onlyActive || rs[0].isActive then [rs[0]] + rest else rest
  }

  /**
   * `byId` after the first pass over the first `n` documents: each id names
   * the position of the last document holding it.
   */
  function IndexById(docs: seq<Category>, n: nat): (m: map<Id, nat>)
    requires n <= |docs|
    ensures forall id :: id in m ==> m[id] < n && docs[m[id]].id == id
  {
    if n == 0 then map[]
    else IndexById(docs, n - 1)[docs[n - 1].id := n - 1]
  }

  /** Every id among the first `n` documents is recorded, at its last position. */
  lemma {:induction false} IndexByIdLast(docs: seq<Category>, n: nat, i: nat)
    requires i < n <= |docs|
    ensures docs[i].id in IndexById(docs, n)
    ensures i <= IndexById(docs, n)[docs[i].id]
    ensures forall l :: IndexById(docs, n)[docs[i].id] < l < n ==> docs[l].id != docs[i].id
  {
    if i < n - 1 {
      IndexByIdLast(docs, n - 1, i);
    }
  }

  /** Only ids of the first `n` documents are recorded. */
  lemma IndexByIdOnly(docs: seq<Category>, n: nat, id: Id)
    requires n <= |docs|
    requires forall j :: 0 <= j < n ==> docs[j].id != id
    ensures id !in IndexById(docs, n)
  {
  }

  /**
   * Where the second pass puts document `i`: under the document its parent id
   * names in `byId`, else (no parent, or a parent that was not loaded) among
   * the roots, written `None`.
   */
  function PlacedUnder(docs: seq<Category>, i: nat): Option<nat>
    requires i < |docs|
  {
    var byId := IndexById(docs, |docs|);
    if docs[i].parentId.Some? && docs[i].parentId.value in byId then Some(byId[docs[i].parentId.value]) else None
  }

  /** The positions below `n` placed among the roots, ascending. */
  function RootsUpTo(docs: seq<Category>, n: nat): (r: seq<nat>)
    requires n <= |docs|
    ensures forall a, b :: 0 <= a < b < |r| ==> r[a] < r[b]
    ensures forall i: nat :: i in r <==> i < n && PlacedUnder(docs, i).None?
  {
    if n == 0 then []
    else
      var lower := RootsUpTo(docs, n - 1);
      assert forall a :: 0 <= a < |lower| ==> lower[a] in lower;
      lower + (if PlacedUnder(docs, n - 1).None? then [n - 1] else [])
  }

  /** The positions below `n` placed under document `j`, ascending. */
  function ChildrenUpTo(docs: seq<Category>, j: nat, n: nat): (r: seq<nat>)
    requires n <= |docs|
    ensures forall a, b :: 0 <= a < b < |r| ==> r[a] < r[b]
    ensures forall i: nat :: i in r <==> i < n && PlacedUnder(docs, i) == Some(j)
  {
    if n == 0 then []
    else
      var lower := ChildrenUpTo(docs, j, n - 1);
      assert forall a :: 0 <= a < |lower| ==> lower[a] in lower;
      lower + (if PlacedUnder(docs, n - 1) == Some(j) then [n - 1] else [])
  }

  /**
   * The two passes of getCategoryTree over the loaded documents: the first
   * gives every document an empty `children` array and records it in `byId`,
   * the second pushes each document into its parent's `children` or into
   * `roots`.  A document is named by its position; `children[j]` is the array
   * of document `j`.
   */
  method BuildForest(docs: seq<Category>) returns (roots: seq<nat>, children: seq<seq<nat>>)
    ensures |children| == |docs|
    ensures roots == RootsUpTo(docs, |docs|)
    ensures forall j :: 0 <= j < |docs| ==> children[j] == ChildrenUpTo(docs, j, |docs|)
  {
    var byId: map<Id, nat> := map[];
    children := [];
    var i: nat := 0;
    while i < |docs|
      invariant i <= |docs|
      invariant byId == IndexById(docs, i)
      invariant |children| == i && forall j :: 0 <= j < i ==> children[j] == []
    {
      children := children + [[]];
      byId := byId[docs[i].id := i];
      i := i + 1;
    }
    roots := [];
    assert RootsUpTo(docs, 0) == [];
    forall j | 0 <= j < |docs|
      ensures children[j] == ChildrenUpTo(docs, j, 0)
    {
      assert ChildrenUpTo(docs, j, 0) == [];
    }
    i := 0;
    while i < |docs|
      invariant i <= |docs|
      invariant byId == IndexById(docs, |docs|)
      invariant |children| == |docs|
      invariant roots == RootsUpTo(docs, i)
      invariant forall j :: 0 <= j < |docs| ==> children[j] == ChildrenUpTo(docs, j, i)
    {
      var d := docs[i];
      ForestStep(docs, i);
      ghost var placed := PlacedUnder(docs, i);
      if d.parentId.Some? && d.parentId.value in byId {
        var p := byId[d.parentId.value];
        assert placed == Some(p);
        children := children[p := children[p] + [i]];
      } else {
        assert placed.None?;
        roots := roots + [i];
      }
      i := i + 1;
    }
  }

  /** One step of the second pass: document `i` joins the roots or its parent's children. */
  lemma ForestStep(docs: seq<Category>, i: nat)
    requires i < |docs|
    ensures var placed := PlacedUnder(docs, i);
      && RootsUpTo(docs, i + 1) == RootsUpTo(docs, i) + (if placed.None? then [i] else [])
      && forall j: nat :: ChildrenUpTo(docs, j, i + 1) == ChildrenUpTo(docs, j, i) + (if placed == Some(j) then [i] else [])
  {
  }

  /** The result of getCategoryTree: the loaded documents, the roots, and each document's children. */
  datatype Forest = Forest(docs: seq<Category>, roots: seq<nat>, children: seq<seq<nat>>)

  /** getCategoryTree: load, sort, build. */
  method GetCategoryTree(store: CategoryCollection, onlyActive: bool) returns (f: Forest)
    ensures f.docs == TreeDocs(store.docs, onlyActive)
    ensures |f.children| == |f.docs|
    ensures forall i: nat :: i in f.roots <==> i < |f.docs| && PlacedUnder(f.docs, i).None?
    ensures forall i: nat, j :: 0 <= j < |f.docs| ==> (i in f.children[j] <==> i < |f.docs| && PlacedUnder(f.docs, i) == Some(j))
  {
    var docs := TreeDocs(store.docs, onlyActive);
    var roots, children := BuildForest(docs);
    f := Forest(docs, roots, children);
  }

  /**
   * Every loaded document is placed exactly once: it is a root or a child of
   * exactly one document, and no array holds it twice.
   */
  lemma PlacedExactlyOnce(docs: seq<Category>, i: nat)
    requires i < |docs|
    ensures (i in RootsUpTo(docs, |docs|)) != (exists j :: 0 <= j < |docs| && i in ChildrenUpTo(docs, j, |docs|))
    ensures forall j, l :: 0 <= j < l < |docs| ==> !(i in ChildrenUpTo(docs, j, |docs|) && i in ChildrenUpTo(docs, l, |docs|))
    ensures multiset(RootsUpTo(docs, |docs|))[i] <= 1
    ensures forall j :: 0 <= j < |docs| ==> multiset(ChildrenUpTo(docs, j, |docs|))[i] <= 1
  {
    var byId := IndexById(docs, |docs|);
    if PlacedUnder(docs, i).Some? {
      var j := PlacedUnder(docs, i).value;
      assert j < |docs| && i in ChildrenUpTo(docs, j, |docs|);
    }
    StrictlyIncreasingOnce(RootsUpTo(docs, |docs|), i);
    forall j | 0 <= j < |docs|
      ensures multiset(ChildrenUpTo(docs, j, |docs|))[i] <= 1
    {
      StrictlyIncreasingOnce(ChildrenUpTo(docs, j, |docs|), i);
    }
  }

  /** A strictly increasing sequence holds each value at most once. */
  lemma {:induction false} StrictlyIncreasingOnce(s: seq<nat>, x: nat)
    requires forall a, b :: 0 <= a < b < |s| ==> s[a] < s[b]
    ensures multiset(s)[x] <= 1
  {
    if s != [] {
      StrictlyIncreasingOnce(s[1..], x);
      assert s == [s[0]] + s[1..];
      if s[0] == x {
        assert x !in s[1..];
      }
    }
  }

  /** A document whose parent was not loaded becomes a root. */
  lemma OrphanIsRoot(docs: seq<Category>, i: nat)
    requires i < |docs| && docs[i].parentId.Some?
    requires forall j :: 0 <= j < |docs| ==> docs[j].id != docs[i].parentId.value
    ensures i in RootsUpTo(docs, |docs|)
  {
    IndexByIdOnly(docs, |docs|, docs[i].parentId.value);
  }

  /** A document goes under the only loaded document holding its parent's id. */
  lemma ChildUnderParent(docs: seq<Category>, i: nat, j: nat)
    requires i < |docs| && j < |docs| && docs[i].parentId == Some(docs[j].id)
    requires forall l :: 0 <= l < |docs| && docs[l].id == docs[j].id ==> l == j
    ensures i in ChildrenUpTo(docs, j, |docs|)
  {
    IndexByIdLast(docs, |docs|, j);
  }

  /** A document whose parent was loaded is not a root. */
  lemma ParentLoadedNotRoot(docs: seq<Category>, i: nat, j: nat)
    requires i < |docs| && j < |docs| && docs[i].parentId == Some(docs[j].id)
    ensures i !in RootsUpTo(docs, |docs|)
  {
    IndexByIdLast(docs, |docs|, j);
  }

  /** When every record is loaded and no parent dangles, the parent of a loaded document is loaded. */
  lemma ParentIsLoaded(db: Db, docs: seq<Category>, d: Category) returns (j: nat)
    requires KeysMatchIds(db) && NoDangling(db)
    requires forall c :: c in docs <==> c in db.Values
    requires d in docs && d.parentId.Some?
    ensures j < |docs| && docs[j].id == d.parentId.value
  {
    var k :| k in db && db[k] == d;
    var pid := d.parentId.value;
    assert db[pid] in db.Values;
    var l :| 0 <= l < |docs| && docs[l] == db[pid];
    j := l;
  }

  /**
   * Loading every record of a collection without dangling parents, the
   * roots of the forest are exactly the records without a parent.
   */
  lemma FullTreeRoots(db: Db, i: nat)
    requires KeysMatchIds(db) && NoDangling(db)
    requires i < |TreeDocs(db, false)|
    ensures i in RootsUpTo(TreeDocs(db, false), |TreeDocs(db, false)|) <==> TreeDocs(db, false)[i].parentId.None?
  {
    var docs := TreeDocs(db, false);
    if docs[i].parentId.Some? {
      var j := ParentIsLoaded(db, docs, docs[i]);
      ParentLoadedNotRoot(docs, i, j);
    }
  }
}
