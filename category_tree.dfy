/**
 * src/app/modules/category/category.tree.ts: the slug normaliser and the
 * derivation of a record's tree fields from its parent's stored fields.
 */
module CategoryTree {
  import opened Wrappers
  import opened Ascii
  import opened CategoryTypes

  /* ---------- replacing runs of characters (`s.replace(/[class]+/g, rep)`) ---------- */

  /** The characters of `s` that are not run characters, in order. */
  function Kept(s: string, inRun: char -> bool): string {
    if s == [] then []
    else if inRun(s[0]) then Kept(s[1..], inRun)
    else [s[0]] + Kept(s[1..], inRun)
  }

  /** The suffix of `s` after its leading run of `inRun` characters. */
  function SkipRun(s: string, inRun: char -> bool): (r: string)
    ensures |r| <= |s| && r == s[|s| - |r|..]
    ensures r == [] || !inRun(r[0])
    ensures s != [] && inRun(s[0]) ==> |r| < |s|
  {
    if s != [] && inRun(s[0]) then SkipRun(s[1..], inRun) else s
  }

  /**
   * Every maximal run of `inRun` characters replaced by the single character
   * `rep`, which is itself a run character; the other characters are kept,
   * in order.
   */
  function ReplaceRuns(s: string, inRun: char -> bool, rep: char): (r: string)
    requires inRun(rep)
    decreases |s|
    ensures r == [] <==> s == []
    ensures s != [] && inRun(s[0]) ==> r[0] == rep
    ensures s != [] && !inRun(s[0]) ==> r[0] == s[0]
    ensures forall i :: 0 <= i < |r| ==> r[i] == rep || (!inRun(r[i]) && r[i] in s)
    ensures forall i :: 0 <= i < |r| - 1 ==> !(r[i] == rep && r[i + 1] == rep)
  {
    if s == [] then []
    else if inRun(s[0]) then
      var rest := SkipRun(s, inRun);
      var tail := ReplaceRuns(rest, inRun, rep);
      assert forall c :: c in rest ==> c in s;
      assert tail != [] ==> tail[0] != rep;
      [rep] + tail
    else
      var tail := ReplaceRuns(s[1..], inRun, rep);
      assert forall c :: c in s[1..] ==> c in s;
      assert s[0] != rep;
      [s[0]] + tail
  }

  /** Skipping a run drops no kept character. */
  lemma {:induction false} SkipRunKeeps(s: string, inRun: char -> bool)
    decreases |s|
    ensures Kept(SkipRun(s, inRun), inRun) == Kept(s, inRun)
  {
    if s != [] && inRun(s[0]) {
      SkipRunKeeps(s[1..], inRun);
    }
  }

  /** The replacement keeps the characters outside the runs, in order. */
  lemma {:induction false} ReplaceRunsKeeps(s: string, inRun: char -> bool, rep: char)
    requires inRun(rep)
    decreases |s|
    ensures Kept(ReplaceRuns(s, inRun, rep), inRun) == Kept(s, inRun)
  {
    if s != [] {
      var r := ReplaceRuns(s, inRun, rep);
      if inRun(s[0]) {
        var rest := SkipRun(s, inRun);
        SkipRunKeeps(s, inRun);
        ReplaceRunsKeeps(rest, inRun, rep);
        assert r == [rep] + ReplaceRuns(rest, inRun, rep);
        assert r[1..] == ReplaceRuns(rest, inRun, rep);
      } else {
        ReplaceRunsKeeps(s[1..], inRun, rep);
        assert r[1..] == ReplaceRuns(s[1..], inRun, rep);
      }
    }
  }

  /* A reference reading of the replacement: mark every run character as `rep`, then drop each `rep` that follows a `rep`. */

  function Marked(s: string, inRun: char -> bool, rep: char): (r: string)
    ensures |r| == |s|
    ensures forall i :: 0 <= i < |s| ==> r[i] == if inRun(s[i]) then rep else s[i]
  {
    seq(|s|, i requires 0 <= i < |s| => if inRun(s[i]) then rep else s[i])
  }

  function Squeeze(t: string, rep: char): string
    decreases |t|
  {
    if |t| <= 1 then t
    else if t[0] == rep && t[1] == rep then Squeeze(t[1..], rep)
    else [t[0]] + Squeeze(t[1..], rep)
  }

  lemma MarkedTail(s: string, inRun: char -> bool, rep: char)
    requires s != []
    ensures Marked(s, inRun, rep) == [Marked(s, inRun, rep)[0]] + Marked(s[1..], inRun, rep)
  {
  }

  /** A leading run becomes one `rep` before the rest of the text. */
  lemma {:induction false} SqueezeLeadingRun(s: string, inRun: char -> bool, rep: char)
    requires inRun(rep) && s != [] && inRun(s[0])
    decreases |s|
    ensures Squeeze(Marked(s, inRun, rep), rep) == [rep] + Squeeze(Marked(SkipRun(s, inRun), inRun, rep), rep)
  {
    var m := Marked(s, inRun, rep);
    MarkedTail(s, inRun, rep);
    if |s| == 1 {
      assert SkipRun(s, inRun) == [];
    } else if inRun(s[1]) {
      assert m[1..] == Marked(s[1..], inRun, rep);
      SqueezeLeadingRun(s[1..], inRun, rep);
    } else {
      assert SkipRun(s, inRun) == s[1..];
      assert m[1] != rep;
      assert m[1..] == Marked(s[1..], inRun, rep);
    }
  }

  /** `ReplaceRuns` is the marking followed by the squeeze: each maximal run leaves exactly one `rep`, where it was. */
  lemma {:induction false} ReplaceRunsSqueezes(s: string, inRun: char -> bool, rep: char)
    requires inRun(rep)
    decreases |s|
    ensures ReplaceRuns(s, inRun, rep) == Squeeze(Marked(s, inRun, rep), rep)
  {
    if s != [] {
      var m := Marked(s, inRun, rep);
      MarkedTail(s, inRun, rep);
      if inRun(s[0]) {
        SqueezeLeadingRun(s, inRun, rep);
        ReplaceRunsSqueezes(SkipRun(s, inRun), inRun, rep);
      } else {
        ReplaceRunsSqueezes(s[1..], inRun, rep);
        assert m[1..] == Marked(s[1..], inRun, rep);
        if |s| > 1 {
          assert m[0] != rep;
        }
      }
    }
  }

  /** A string whose run characters are all `rep` and never adjacent is left as it is. */
  lemma {:induction false} ReplaceRunsFixed(s: string, inRun: char -> bool, rep: char)
    requires inRun(rep)
    requires forall i :: 0 <= i < |s| && inRun(s[i]) ==> s[i] == rep
    requires forall i :: 0 <= i < |s| - 1 ==> !(inRun(s[i]) && inRun(s[i + 1]))
    decreases |s|
    ensures ReplaceRuns(s, inRun, rep) == s
  {
    if s != [] {
      ReplaceRunsFixed(s[1..], inRun, rep);
      if inRun(s[0]) {
        assert SkipRun(s, inRun) == s[1..] by {
          assert s[1..] == [] || !inRun(s[1]);
        }
      }
    }
  }

  /* ---------- normalizeSlug ---------- */

  predicate NonWord(c: char) { !IsWordChar(c) }

  /** The characters a normalised slug is made of: `[a-z0-9_-]`. */
  predicate IsSlugChar(c: char) { IsLower(c) || IsDigit(c) || c == '_' || c == '-' }

  /** A normalised slug: slug characters, no hyphen at either end, no two hyphens in a row. */
  predicate IsNormalSlug(t: string) {
    && (forall i :: 0 <= i < |t| ==> IsSlugChar(t[i]))
    && (t != [] ==> t[0] != '-' && t[|t| - 1] != '-')
    && (forall i :: 0 <= i < |t| - 1 ==> !(t[i] == '-' && t[i + 1] == '-'))
  }

  function DropLeadingHyphens(s: string): (r: string)
    ensures |r| <= |s| && r == s[|s| - |r|..]
    ensures r == [] || r[0] != '-'
    ensures s != [] && s[0] != '-' ==> r == s
  {
    if s != [] && s[0] == '-' then DropLeadingHyphens(s[1..]) else s
  }

  function DropTrailingHyphens(s: string): (r: string)
    ensures |r| <= |s| && r == s[..|r|]
    ensures r == [] || r[|r| - 1] != '-'
    ensures s != [] && s[|s| - 1] != '-' ==> r == s
  {
    if s != [] && s[|s| - 1] == '-' then DropTrailingHyphens(s[..|s| - 1]) else s
  }

  /** `input.toLowerCase().trim().replace(/[^\w]+/g, "-").replace(/^-+|-+$/g, "")` */
  function NormalizeSlug(input: string): string {
    DropTrailingHyphens(DropLeadingHyphens(ReplaceRuns(Trim(Lower(input)), NonWord, '-')))
  }

  lemma LoweredTrimmedHasNoUpper(input: string)
    ensures NoUpper(Trim(Lower(input)))
  {
    var lowered := Lower(input);
    TrimIsSlice(lowered);
    var i, j :| 0 <= i <= j <= |lowered| && Trim(lowered) == lowered[i..j];
  }

  lemma ReplacedAreSlugChars(t: string)
    requires NoUpper(t)
    ensures forall i :: 0 <= i < |ReplaceRuns(t, NonWord, '-')| ==> IsSlugChar(ReplaceRuns(t, NonWord, '-')[i])
  {
    var r := ReplaceRuns(t, NonWord, '-');
    forall i | 0 <= i < |r| ensures IsSlugChar(r[i]) {
      if r[i] != '-' {
        var k :| 0 <= k < |t| && t[k] == r[i];
      }
    }
  }

  /** Slug characters without `--`, the shape of the text before the hyphens at its ends are dropped. */
  predicate HyphenSeparated(v: string) {
    && (forall i :: 0 <= i < |v| ==> IsSlugChar(v[i]))
    && (forall i :: 0 <= i < |v| - 1 ==> !(v[i] == '-' && v[i + 1] == '-'))
  }

  lemma HyphenSeparatedSlice(v: string, a: nat, b: nat)
    requires a <= b <= |v|
    requires HyphenSeparated(v)
    ensures HyphenSeparated(v[a..b])
  {
    var w := v[a..b];
    assert forall i :: 0 <= i < |w| ==> w[i] == v[a + i];
  }

  lemma StrippedIsNormal(v: string)
    requires HyphenSeparated(v)
    ensures IsNormalSlug(DropTrailingHyphens(DropLeadingHyphens(v)))
  {
    var front := DropLeadingHyphens(v);
    HyphenSeparatedSlice(v, |v| - |front|, |v|);
    var out := DropTrailingHyphens(front);
    HyphenSeparatedSlice(front, 0, |out|);
    if out != [] {
      assert out[0] == front[0];
    }
  }

  /** The normaliser's output is made of `[a-z0-9_-]`, has no hyphen at an end and no `--`. */
  lemma NormalizeSlugIsNormal(input: string)
    ensures IsNormalSlug(NormalizeSlug(input))
  {
    LoweredTrimmedHasNoUpper(input);
    ReplacedAreSlugChars(Trim(Lower(input)));
    StrippedIsNormal(ReplaceRuns(Trim(Lower(input)), NonWord, '-'));
  }

  /** A normalised slug is a fixed point of the normaliser. */
  lemma NormalSlugFixed(t: string)
    requires IsNormalSlug(t)
    ensures NormalizeSlug(t) == t
  {
    assert Lower(t) == t;
    TrimNoSpace(t);
    ReplaceRunsFixed(t, NonWord, '-');
  }

  /** `normalizeSlug` is idempotent. */
  lemma NormalizeSlugIdempotent(input: string)
    ensures NormalizeSlug(NormalizeSlug(input)) == NormalizeSlug(input)
  {
    NormalizeSlugIsNormal(input);
    NormalSlugFixed(NormalizeSlug(input));
  }

  /** Case does not matter to the normaliser. */
  lemma NormalizeSlugIgnoresCase(input: string)
    ensures NormalizeSlug(Lower(input)) == NormalizeSlug(input)
  {
    assert Lower(Lower(input)) == Lower(input);
  }

  lemma LowerElectronics()
    ensures Lower("Electronics") == "electronics"
  {
    var s := "Electronics";
    assert ToLower(s[0]) == 'e';
    assert forall i :: 1 <= i < |s| ==> !IsUpper(s[i]);
  }

  /** "electronics" is already normalised. */
  lemma NormalizeSlugKeepsExample()
    ensures NormalizeSlug("electronics") == "electronics"
  {
    NormalSlugFixed("electronics");
  }

  /** "Electronics" becomes "electronics". */
  lemma NormalizeSlugExample()
    ensures NormalizeSlug("Electronics") == "electronics"
  {
    LowerElectronics();
    NormalizeSlugIgnoresCase("Electronics");
    NormalizeSlugKeepsExample();
  }

  /** The empty input gives the empty slug. */
  lemma NormalizeSlugEmpty()
    ensures NormalizeSlug("") == ""
  {
    NormalSlugFixed("");
  }

  /* ---------- path clean-up: `path.replace(/\/+/g, "/")` ---------- */

  predicate IsSlash(c: char) { c == '/' }

  predicate NoDoubleSlash(p: string) {
    forall i :: 0 <= i < |p| - 1 ==> !(p[i] == '/' && p[i + 1] == '/')
  }

  function CollapseSlashes(p: string): (r: string)
    ensures NoDoubleSlash(r)
    ensures r == [] <==> p == []
  {
    ReplaceRuns(p, IsSlash, '/')
  }

  /** A path without `//` is not changed by the clean-up. */
  lemma CollapseSlashesFixed(p: string)
    requires NoDoubleSlash(p)
    ensures CollapseSlashes(p) == p
  {
    ReplaceRunsFixed(p, IsSlash, '/');
  }

  /* ---------- computeTreeFields ---------- */

  /**
   * The record with `level`, `ancestors` and `path` derived from the stored
   * fields of its parent as found in `db`; a missing parent (null or not
   * found) gives the root values.
   */
  function TreeFields(doc: Category, db: Db): Category {
    if doc.parentId.Some? && doc.parentId.value in db then
      var parent := db[doc.parentId.value];
      doc.(level := parent.level + 1,
           ancestors := parent.ancestors + [doc.parentId.value],
           path := CollapseSlashes(parent.path + "/" + doc.slug))
    else
      doc.(level := 0, ancestors := [], path := CollapseSlashes("/" + doc.slug))
  }

  /** computeTreeFields as written: locals, a push into `ancestors`, then the three writes to the document. */
  method ComputeTreeFields(doc: Category, store: CategoryCollection) returns (res: Category)
    ensures res == TreeFields(doc, store.docs)
  {
    var ancestors: seq<Id> := [];
    var level := 0;
    var path := "/" + doc.slug;
    if doc.parentId.Some? {
      if doc.parentId.value in store.docs {
        var parent := store.docs[doc.parentId.value];
        level := parent.level + 1;
        ancestors := ancestors + parent.ancestors + [doc.parentId.value];
        path := parent.path + "/" + doc.slug;
      }
    }
    res := doc.(level := level);
    res := res.(ancestors := ancestors);
    res := res.(path := CollapseSlashes(path));
  }

  /** Root case: no parent, or a parent that is not found, yields level 0, no ancestors and path "/slug" cleaned up. */
  lemma TreeFieldsRoot(doc: Category, db: Db)
    requires doc.parentId.None? || doc.parentId.value !in db
    ensures TreeFields(doc, db).level == 0
    ensures TreeFields(doc, db).ancestors == []
    ensures TreeFields(doc, db).path == CollapseSlashes("/" + doc.slug)
  {
  }

  /** Child case: one level below the parent, the parent's ancestors plus the parent, and the parent's path extended. */
  lemma TreeFieldsChild(doc: Category, db: Db)
    requires doc.parentId.Some? && doc.parentId.value in db
    ensures var parent := db[doc.parentId.value];
      && TreeFields(doc, db).level == parent.level + 1
      && TreeFields(doc, db).ancestors == parent.ancestors + [doc.parentId.value]
      && TreeFields(doc, db).path == CollapseSlashes(parent.path + "/" + doc.slug)
  {
  }

  /** The derived path is never empty: it holds at least the "/" before the slug. */
  lemma TreeFieldsPathNonEmpty(doc: Category, db: Db)
    ensures TreeFields(doc, db).path != []
  {
  }

  /** Only the three tree fields are written; the slug, the parent and all other fields are kept. */
  lemma TreeFieldsWritesOnlyTreeFields(doc: Category, db: Db)
    ensures TreeFields(doc, db).(level := doc.level, ancestors := doc.ancestors, path := doc.path) == doc
    ensures !exists i :: 0 <= i < |TreeFields(doc, db).path| - 1 && TreeFields(doc, db).path[i] == '/' && TreeFields(doc, db).path[i + 1] == '/'
  {
  }

  /** The derived fields depend on the record only through its parent link and its slug. */
  lemma TreeFieldsDependOnParentAndSlug(a: Category, b: Category, db: Db)
    requires a.parentId == b.parentId && a.slug == b.slug
    ensures TreeFields(a, db).level == TreeFields(b, db).level
    ensures TreeFields(a, db).ancestors == TreeFields(b, db).ancestors
    ensures TreeFields(a, db).path == TreeFields(b, db).path
  {
  }

  /** Deriving the tree fields a second time from the same collection changes nothing. */
  lemma TreeFieldsIdempotent(doc: Category, db: Db)
    ensures TreeFields(TreeFields(doc, db), db) == TreeFields(doc, db)
  {
    TreeFieldsDependOnParentAndSlug(TreeFields(doc, db), doc, db);
  }

  /** Two records store the same tree fields. */
  predicate SameTree(a: Category, b: Category) {
    a.level == b.level && a.ancestors == b.ancestors && a.path == b.path
  }

  /**
   * The derived fields follow the parent: records with the same parent link
   * and slug, looked up in collections where the parent is present alike and
   * stores the same tree fields, get the same tree fields.
   */
  lemma TreeFieldsFollowParent(a: Category, b: Category, db: Db, db2: Db)
    requires a.parentId == b.parentId && a.slug == b.slug
    requires a.parentId.Some? ==> (a.parentId.value in db <==> a.parentId.value in db2)
    requires a.parentId.Some? && a.parentId.value in db ==> SameTree(db[a.parentId.value], db2[a.parentId.value])
    ensures SameTree(TreeFields(a, db), TreeFields(b, db2))
  {
  }

  /** A record whose derived tree fields are the ones it holds is its own derivation. */
  lemma CurrentIfSameTree(doc: Category, db: Db)
    requires SameTree(TreeFields(doc, db), doc)
    ensures TreeFields(doc, db) == doc
  {
    TreeFieldsWritesOnlyTreeFields(doc, db);
  }

  /** A parent whose ancestor list is as long as its level passes that on to the child. */
  lemma TreeFieldsKeepDepth(doc: Category, db: Db)
    requires doc.parentId.Some? && doc.parentId.value in db
    requires |db[doc.parentId.value].ancestors| == db[doc.parentId.value].level
    ensures |TreeFields(doc, db).ancestors| == TreeFields(doc, db).level
  {
  }

  /** With a normalised slug, a root's path is exactly "/" + slug. */
  lemma RootPathExact(doc: Category, db: Db)
    requires doc.parentId.None? || doc.parentId.value !in db
    requires IsNormalSlug(doc.slug)
    ensures TreeFields(doc, db).path == "/" + doc.slug
  {
    CollapseSlashesFixed("/" + doc.slug);
  }

  /**
   * With a normalised slug and a parent path that has no `//` and no trailing
   * slash, the child's path is exactly the parent's path, "/", and the slug.
   */
  lemma ChildPathExact(doc: Category, db: Db)
    requires doc.parentId.Some? && doc.parentId.value in db
    requires IsNormalSlug(doc.slug)
    requires NoDoubleSlash(db[doc.parentId.value].path)
    requires db[doc.parentId.value].path == [] || db[doc.parentId.value].path[|db[doc.parentId.value].path| - 1] != '/'
    ensures TreeFields(doc, db).path == db[doc.parentId.value].path + "/" + doc.slug
  {
    var pp := db[doc.parentId.value].path;
    var p := pp + "/" + doc.slug;
    forall i | 0 <= i < |p| - 1 ensures !(p[i] == '/' && p[i + 1] == '/') {
      if i < |pp| - 1 {
        assert p[i] == pp[i] && p[i + 1] == pp[i + 1];
      } else if i == |pp| - 1 {
        assert p[i] == pp[i];
      } else {
        assert p[i + 1] == doc.slug[i - |pp|];
      }
    }
    CollapseSlashesFixed(p);
  }
}
