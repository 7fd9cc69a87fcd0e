/**
 * The orders MongoDB sorts categories by: `sort("name")`, `sort("sortOrder")`
 * and their descending forms in listCategories, and `{level: 1, sortOrder: 1}`
 * in getCategoryTree.  Strings compare by code point, and a null sortOrder
 * sorts before every number.  The query engine's sort is modelled by an
 * insertion sort; MongoDB leaves the order of records with equal keys open.
 */
module CategoryOrdering {
  import opened Wrappers
  import opened CategoryTypes

  /* ---------- strings ---------- */

  /** Code-point lexicographic order: a proper prefix comes first. */
  predicate LexLess(a: string, b: string) {
    if a == [] then b != []
    else b != [] && (a[0] < b[0] || (a[0] == b[0] && LexLess(a[1..], b[1..])))
  }

  lemma {:induction false} LexLessIrreflexive(a: string)
    ensures !LexLess(a, a)
  {
    if a != [] {
      LexLessIrreflexive(a[1..]);
    }
  }

  lemma {:induction false} LexLessTransitive(a: string, b: string, c: string)
    requires LexLess(a, b) && LexLess(b, c)
    ensures LexLess(a, c)
  {
    if a != [] && a[0] == b[0] && b[0] == c[0] {
      LexLessTransitive(a[1..], b[1..], c[1..]);
    }
  }

  lemma {:induction false} LexLessTotal(a: string, b: string)
    ensures LexLess(a, b) || a == b || LexLess(b, a)
  {
    if a != [] && b != [] && a[0] == b[0] {
      LexLessTotal(a[1..], b[1..]);
      if a[1..] == b[1..] {
        assert a == [a[0]] + a[1..] && b == [b[0]] + b[1..];
      }
    }
  }

  /** Any `b` sorts after `a` or before `c` when `a` sorts before `c`. */
  lemma LexLessSplit(a: string, b: string, c: string)
    requires LexLess(a, c)
    ensures LexLess(a, b) || LexLess(b, c)
  {
    LexLessTotal(a, b);
    LexLessTotal(b, c);
    if !LexLess(a, b) && !LexLess(b, c) {
      if a == b {
      } else if b == c {
      } else {
        LexLessTransitive(c, b, a);
        LexLessTransitive(a, c, a);
        LexLessIrreflexive(a);
      }
    }
  }

  /* ---------- sortOrder ---------- */

  /** Ascending sortOrder with null first. */
  predicate OrderLess(a: Option<int>, b: Option<int>) {
    b.Some? && (a.None? || a.value < b.value)
  }

  /* ---------- sort keys ---------- */

  /** The four `sort` values of listCategories, and the order of getCategoryTree. */
  datatype SortKey = Name | SortOrder | NameDesc | SortOrderDesc | LevelThenSortOrder

  /** `a` sorts strictly before `b` under `key`. */
  predicate Before(key: SortKey, a: Category, b: Category) {
    match key
    case Name => LexLess(a.name, b.name)
    case NameDesc => LexLess(b.name, a.name)
    case SortOrder => OrderLess(a.sortOrder, b.sortOrder)
    case SortOrderDesc => OrderLess(b.sortOrder, a.sortOrder)
    case LevelThenSortOrder => a.level < b.level || (a.level == b.level && OrderLess(a.sortOrder, b.sortOrder))
  }

  /** Never both ways. */
  lemma BeforeAsymmetric(key: SortKey, a: Category, b: Category)
    ensures !(Before(key, a, b) && Before(key, b, a))
  {
    if key == Name && LexLess(a.name, b.name) && LexLess(b.name, a.name) {
      LexLessTransitive(a.name, b.name, a.name);
      LexLessIrreflexive(a.name);
    }
    if key == NameDesc && LexLess(b.name, a.name) && LexLess(a.name, b.name) {
      LexLessTransitive(a.name, b.name, a.name);
      LexLessIrreflexive(a.name);
    }
  }

  /** Anything sits before `c`, or after `a`, when `a` sits before `c`: "not before" is transitive. */
  lemma BeforeSplit(key: SortKey, a: Category, b: Category, c: Category)
    requires Before(key, a, c)
    ensures Before(key, a, b) || Before(key, b, c)
  {
    match key
    case Name => LexLessSplit(a.name, b.name, c.name);
    case NameDesc => LexLessSplit(c.name, b.name, a.name);
    case SortOrder =>
    case SortOrderDesc =>
    case LevelThenSortOrder =>
  }

  /** No later element sorts strictly before an earlier one. */
  predicate Sorted(key: SortKey, s: seq<Category>) {
    forall i, j :: 0 <= i < j < |s| ==> !Before(key, s[j], s[i])
  }

  /* ---------- the sort ---------- */

  /** `x` placed before the first element that does not sort strictly before it. */
  function InsertBy(key: SortKey, x: Category, s: seq<Category>): (r: seq<Category>)
    ensures multiset(r) == multiset(s) + multiset{x}
    ensures |r| == |s| + 1
  {
    if s == [] then [x]
    else if !Before(key, s[0], x) then [x] + s
    else
      assert s == [s[0]] + s[1..];
      [s[0]] + InsertBy(key, x, s[1..])
  }

  lemma {:induction false} InsertBySorted(key: SortKey, x: Category, s: seq<Category>)
    requires Sorted(key, s)
    ensures Sorted(key, InsertBy(key, x, s))
  {
    if s == [] {
    } else if !Before(key, s[0], x) {
      forall j | 0 <= j < |s|
        ensures !Before(key, s[j], x)
      {
        if j > 0 {
          assert !Before(key, s[j], s[0]);
          if Before(key, s[j], x) {
            BeforeSplit(key, s[j], s[0], x);
          }
        }
      }
      ConsSorted(key, x, s);
    } else {
      var t := InsertBy(key, x, s[1..]);
      InsertBySorted(key, x, s[1..]);
      forall j | 0 <= j < |t|
        ensures !Before(key, t[j], s[0])
      {
        assert t[j] in multiset(t);
        if t[j] == x {
          BeforeAsymmetric(key, s[0], x);
        } else {
          assert t[j] in s[1..];
          var m :| 0 <= m < |s[1..]| && s[1..][m] == t[j];
          assert s[m + 1] == t[j];
        }
      }
      ConsSorted(key, s[0], t);
    }
  }

  /** A sorted sequence stays sorted with an element in front that none of it sorts before. */
  lemma ConsSorted(key: SortKey, y: Category, t: seq<Category>)
    requires Sorted(key, t)
    requires forall j :: 0 <= j < |t| ==> !Before(key, t[j], y)
    ensures Sorted(key, [y] + t)
  {
    var r := [y] + t;
    forall i, j | 0 <= i < j < |r|
      ensures !Before(key, r[j], r[i])
    {
      assert r[j] == t[j - 1];
      if i > 0 {
        assert r[i] == t[i - 1];
      }
    }
  }

  /** The records of `s` rearranged so that none sorts strictly before an earlier one. */
  function SortBy(key: SortKey, s: seq<Category>): (r: seq<Category>)
    ensures multiset(r) == multiset(s)
    ensures |r| == |s|
    ensures Sorted(key, r)
  {
    if s == [] then []
    else
      assert s == [s[0]] + s[1..];
      InsertBySorted(key, s[0], SortBy(key, s[1..]));
      InsertBy(key, s[0], SortBy(key, s[1..]))
  }

  /** Two records are swapped exactly when the second sorts strictly before the first. */
  lemma SortPair(key: SortKey, a: Category, b: Category)
    ensures SortBy(key, [a, b]) == if Before(key, b, a) then [b, a] else [a, b]
  {
    SortSingleton(key, b);
    assert [a, b][0] == a && [a, b][1..] == [b];
    assert SortBy(key, [a, b]) == InsertBy(key, a, SortBy(key, [b]));
    InsertIntoSingleton(key, a, b);
  }

  lemma SortSingleton(key: SortKey, b: Category)
    ensures SortBy(key, [b]) == [b]
  {
    assert [b][1..] == [];
    assert SortBy(key, [b]) == InsertBy(key, b, []);
  }

  lemma InsertIntoSingleton(key: SortKey, a: Category, b: Category)
    ensures InsertBy(key, a, [b]) == if Before(key, b, a) then [b, a] else [a, b]
  {
    assert [b][1..] == [];
    if Before(key, b, a) {
      assert InsertBy(key, a, [b]) == [b] + InsertBy(key, a, []);
    }
  }

  /** "Phones" (sortOrder 2) and "Books" (sortOrder 1): by sortOrder and by name "Books" comes first, by `-name` last. */
  lemma SortByTwoExample()
    ensures var a := Category(0, "Phones", "phones", None, None, "/phones", 0, [], Some(2), true);
      var b := Category(1, "Books", "books", None, None, "/books", 0, [], Some(1), true);
      SortBy(SortOrder, [a, b]) == [b, a] && SortBy(Name, [a, b]) == [b, a]
        && SortBy(NameDesc, [a, b]) == [a, b]
  {
    var a := Category(0, "Phones", "phones", None, None, "/phones", 0, [], Some(2), true);
    var b := Category(1, "Books", "books", None, None, "/books", 0, [], Some(1), true);
    SortPair(SortOrder, a, b);
    SortPair(Name, a, b);
    SortPair(NameDesc, a, b);
    assert LexLess(b.name, a.name);
    assert !LexLess(a.name, b.name);
  }
}
