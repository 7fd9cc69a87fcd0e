/**
 * The request schemas of the category routes: the ObjectId and slug
 * patterns, the field rules of the create and update bodies (an update must
 * carry at least one field), and the rules on the list and delete query
 * strings.  The router has these validations switched off; they are
 * modelled as predicates on the request.  A JSON body is a map from field
 * names to values; zod drops the fields it does not know.
 */
module CategoryValidation {
  import opened Wrappers
  import opened Ascii
  import opened CategoryTypes
  import opened CategoryTree
  import opened CategoryModel
  import opened CategoryService
  import opened CategoryOrdering
  import opened CategoryHelper

  /* ---------- ObjectId and slug ---------- */

  /** `/^[a-fA-F0-9]{24}$/`. */
  predicate IsObjectId(s: string) {
    |s| == 24 && forall i :: 0 <= i < |s| ==> IsHex(s[i])
  }

  /** `[a-z0-9]`. */
  predicate IsAlnum(c: char) { IsLower(c) || IsDigit(c) }

  /** The position of the first hyphen of `s`, or its length. */
  function FirstHyphen(s: string): (k: nat)
    ensures k <= |s|
    ensures k < |s| ==> s[k] == '-'
    ensures forall i :: 0 <= i < k ==> s[i] != '-'
  {
    if s == [] || s[0] == '-' then 0 else 1 + FirstHyphen(s[1..])
  }

  /**
   * `/^[a-z0-9]+(?:-[a-z0-9]+)*$/`: a run of `[a-z0-9]`, then any number of
   * hyphens each followed by another such run.
   */
  predicate IsValidSlug(s: string)
    decreases |s|
  {
    var k := FirstHyphen(s);
    && k > 0
    && (forall i :: 0 <= i < k ==> IsAlnum(s[i]))
    && (k < |s| ==> IsValidSlug(s[k + 1..]))
  }

  /** A valid slug is a normalised slug without underscores, and every such non-empty slug is valid. */
  lemma {:induction false} ValidSlugIsNormal(s: string)
    ensures IsValidSlug(s) <==> s != [] && IsNormalSlug(s) && forall i :: 0 <= i < |s| ==> s[i] != '_'
  {
    var k := FirstHyphen(s);
    if k < |s| {
      var rest := s[k + 1..];
      ValidSlugIsNormal(rest);
      assert forall i :: 0 <= i < |rest| ==> rest[i] == s[k + 1 + i];
      if s != [] && IsNormalSlug(s) && (forall i :: 0 <= i < |s| ==> s[i] != '_') {
        assert k > 0;
        assert k + 1 < |s|;
        assert rest[0] != '-';
        assert rest[|rest| - 1] == s[|s| - 1];
      }
      if IsValidSlug(s) {
        assert IsValidSlug(rest);
        forall i | 0 <= i < |s| - 1
          ensures !(s[i] == '-' && s[i + 1] == '-')
        {
          if i == k - 1 {
          } else if i == k {
            assert s[i + 1] == rest[0];
          } else if i > k {
            assert s[i] == rest[i - k - 1] && s[i + 1] == rest[i - k];
          }
        }
        assert s[|s| - 1] == rest[|rest| - 1];
      }
    }
  }

  /** A slug that passes validation is left as it is by the model's normaliser. */
  lemma ValidSlugIsFixed(s: string)
    requires IsValidSlug(s)
    ensures NormalizeSlug(s) == s
  {
    ValidSlugIsNormal(s);
    NormalSlugFixed(s);
  }

  /** The converse fails: `a_b` is a normalised slug but not a valid one. */
  lemma NormalSlugNotAlwaysValid()
    ensures NormalizeSlug("a_b") == "a_b" && !IsValidSlug("a_b")
  {
    assert IsNormalSlug("a_b");
    NormalSlugFixed("a_b");
    ValidSlugIsNormal("a_b");
    assert "a_b"[1] == '_';
  }

  /** A non-empty run of `[a-z0-9]` is a valid slug. */
  lemma AlnumRunIsValidSlug(w: string)
    requires w != [] && forall i :: 0 <= i < |w| ==> IsAlnum(w[i])
    ensures IsValidSlug(w)
  {
    assert FirstHyphen(w) == |w|;
  }

  /** A run of `[a-z0-9]`, a hyphen and a valid slug make a valid slug. */
  lemma HyphenJoinIsValidSlug(w: string, rest: string)
    requires w != [] && forall i :: 0 <= i < |w| ==> IsAlnum(w[i])
    requires IsValidSlug(rest)
    ensures IsValidSlug(w + "-" + rest)
  {
    var s := w + "-" + rest;
    assert FirstHyphen(s) == |w| by {
      assert s[|w|] == '-';
    }
    assert s[|w| + 1..] == rest;
  }

  lemma AlnumSlugExample()
    ensures IsValidSlug("tv4k")
  {
    AlnumRunIsValidSlug("tv4k");
  }

  lemma InvalidSlugExamples()
    ensures !IsValidSlug("-phones") && !IsValidSlug("Phones") && !IsValidSlug("")
  {
    assert "Phones"[0] == 'P';
  }

  lemma DoubleHyphenInvalid()
    ensures !IsValidSlug("tv--4k")
  {
    assert "tv--4k"[3..] == "-4k";
  }

  /** `idOrSlug` of getCategory: an ObjectId or a valid slug. */
  predicate IsIdOrSlug(s: string) {
    IsObjectId(s) || IsValidSlug(s)
  }

  /**
   * The two arms overlap: an ObjectId written in lower case is also a valid
   * slug, so the pattern alone does not tell an id from a slug.
   */
  lemma LowerObjectIdIsSlug(s: string)
    requires IsObjectId(s) && NoUpper(s)
    ensures IsValidSlug(s)
  {
    assert forall i :: 0 <= i < |s| ==> IsAlnum(s[i]);
    AlnumRunIsValidSlug(s);
  }

  /* ---------- JSON bodies ---------- */

  /** A JSON value: null, a boolean, a whole number, a number with a fraction, a string, or an array or object. */
  datatype Json = JNull | JBool(b: bool) | JInt(n: int) | JFraction | JString(s: string) | JComposite

  type Body = map<string, Json>

  function Field(body: Body, name: string): Option<Json> {
    if name in body then Some(body[name]) else None
  }

  /** `z.string().min(1)`. */
  predicate NonEmptyString(v: Json) { v.JString? && v.s != [] }

  /** `z.string().min(1).optional().nullable()`: absent, null or a non-empty string. */
  predicate NullableStringRule(v: Option<Json>) {
    v.None? || v.value == JNull || NonEmptyString(v.value)
  }

  /** `slugStr.optional()`. */
  predicate SlugRule(v: Option<Json>) {
    v.None? || (v.value.JString? && IsValidSlug(v.value.s))
  }

  /** `z.union([objectId, z.null()]).optional()`. */
  predicate ParentIdRule(v: Option<Json>) {
    v.None? || v.value == JNull || (v.value.JString? && IsObjectId(v.value.s))
  }

  /** `z.number().int().nonnegative().optional().nullable()`. */
  predicate SortOrderRule(v: Option<Json>) {
    v.None? || v.value == JNull || (v.value.JInt? && v.value.n >= 0)
  }

  /** `z.boolean().optional()`. */
  predicate IsActiveRule(v: Option<Json>) {
    v.None? || v.value.JBool?
  }

  /** The fields both bodies know. */
  const KnownFields: set<string> := {"name", "slug", "icon", "image", "parentId", "sortOrder", "isActive", "metaTitle", "metaDescription"}

  /** The rules shared by both bodies, for every field but `name`. */
  predicate OptionalFieldsOk(body: Body) {
    && SlugRule(Field(body, "slug"))
    && NullableStringRule(Field(body, "icon"))
    && NullableStringRule(Field(body, "image"))
    && ParentIdRule(Field(body, "parentId"))
    && SortOrderRule(Field(body, "sortOrder"))
    && IsActiveRule(Field(body, "isActive"))
    && NullableStringRule(Field(body, "metaTitle"))
    && NullableStringRule(Field(body, "metaDescription"))
  }

  /** createCategorySchema: a non-empty `name`, the optional fields by their rules. */
  predicate CreateBodyValid(body: Body) {
    && Field(body, "name").Some? && NonEmptyString(body["name"])
    && OptionalFieldsOk(body)
  }

  /** updateCategorySchema: every field optional, and at least one known field given. */
  predicate UpdateBodyValid(body: Body) {
    && (Field(body, "name").None? || NonEmptyString(body["name"]))
    && OptionalFieldsOk(body)
    && exists k :: k in body && k in KnownFields
  }

  /** An update without any known field is refused; unknown fields do not count. */
  lemma UpdateNeedsAKnownField(body: Body)
    requires forall k :: k in body ==> k !in KnownFields
    ensures !UpdateBodyValid(body)
  {
  }

  /** A valid creation body is also a valid update body. */
  lemma CreateBodyIsUpdateBody(body: Body)
    requires CreateBodyValid(body)
    ensures UpdateBodyValid(body)
  {
    assert "name" in body && "name" in KnownFields;
  }

  /** One valid field is a valid update; an empty body or an unknown field alone is not. */
  lemma UpdateBodyExamples()
    ensures UpdateBodyValid(map["isActive" := JBool(false)])
    ensures !UpdateBodyValid(map[]) && !UpdateBodyValid(map["color" := JString("red")])
    ensures !UpdateBodyValid(map["sortOrder" := JInt(-1)]) && !UpdateBodyValid(map["sortOrder" := JFraction])
  {
    UpdateNeedsAKnownField(map[]);
    UpdateNeedsAKnownField(map["color" := JString("red")]);
    assert "isActive" in KnownFields;
  }

  /* ---------- from a valid body to the service's payload ---------- */

  /** An optional string field: a string, or nothing for absent and null. */
  function StringField(v: Option<Json>): Option<string> {
    if v.Some? && v.value.JString? then Some(v.value.s) else None
  }

  /**
   * The payload createCategory receives from a valid body; `idOf` stands for
   * the ObjectId of a parent written in hexadecimal.
   */
  function CreatePayloadOf(body: Body, idOf: string -> Id): (p: CreatePayload)
    requires CreateBodyValid(body)
    ensures p.sortOrder.Some? ==> p.sortOrder.value >= 0
    ensures p.slug.Some? ==> IsValidSlug(p.slug.value)
    ensures p.name != []
  {
    var parent := Field(body, "parentId");
    var order := Field(body, "sortOrder");
    var active := Field(body, "isActive");
    CreatePayload(
      body["name"].s,
      StringField(Field(body, "slug")),
      StringField(Field(body, "icon")),
      if parent.Some? && parent.value.JString? then Some(idOf(parent.value.s)) else None,
      if order.Some? && order.value.JInt? then Some(order.value.n) else None,
      if active.Some? then Some(active.value.b) else None)
  }

  /** A valid slug has no white space at its ends. */
  lemma ValidSlugIsTrimmed(s: string)
    requires IsValidSlug(s)
    ensures Trim(s) == s
  {
    ValidSlugIsNormal(s);
    assert !IsSpace(s[0]) && !IsSpace(s[|s| - 1]) by {
      assert IsSlugChar(s[0]) && IsSlugChar(s[|s| - 1]);
    }
    TrimNoSpace(s);
  }

  /** The pre-validate hook keeps a valid slug. */
  lemma ValidSlugOnInsert(doc: Category)
    requires IsValidSlug(doc.slug)
    ensures SlugOnInsert(doc) == doc.slug
  {
    ValidSlugIsFixed(doc.slug);
  }

  /** The insert keeps a valid slug as the document carries it. */
  lemma ValidSlugInserted(db: Db, doc: Category)
    requires IsValidSlug(doc.slug) && Inserted(db, doc).Success?
    ensures Inserted(db, doc).value.slug == doc.slug
  {
    ValidSlugOnInsert(doc);
    InsertedRecord(db, doc);
  }

  /** The new document carries a valid slug as given. */
  lemma ValidSlugOnNewDocument(db: Db, name: string, slug: string, icon: Option<string>,
                               parentId: Option<Id>, sortOrder: Option<int>, isActive: bool)
    requires IsValidSlug(slug)
    ensures NewDocument(db, name, Some(slug), icon, parentId, sortOrder, isActive).slug == slug
  {
    ValidSlugIsTrimmed(slug);
  }

  /** A creation that gives a valid slug stores exactly that slug. */
  lemma ValidSlugStoredAsGiven(db: Db, p: CreatePayload)
    requires p.slug.Some? && IsValidSlug(p.slug.value)
    requires Created(db, p).1.Success?
    ensures Created(db, p).1.value.slug == p.slug.value
  {
    CreatedSteps(db, p);
    var db1 := MadeRoom(db, p.parentId, p.sortOrder, None);
    var doc := NewDocument(db1, p.name, p.slug, p.icon, p.parentId, p.sortOrder, p.isActive.GetOr(true));
    ValidSlugOnNewDocument(db1, p.name, p.slug.value, p.icon, p.parentId, p.sortOrder, p.isActive.GetOr(true));
    ValidSlugInserted(db1, doc);
  }

  /* ---------- query strings ---------- */

  /** `z.string().regex(/^\d+$/).transform(Number).optional()`. */
  predicate DigitsRule(v: QueryValue) {
    v.Absent? || (v.Text? && v.s != [] && AllDigits(v.s))
  }

  /** listCategoriesSchema on the query string. */
  predicate ListQueryValid(q: RawQuery) {
    && (q.parentId.Absent? || q.parentId.Null? || (q.parentId.Text? && IsObjectId(q.parentId.s)))
    && (q.q.Absent? || q.q.Text?)
    && (q.isActive.Absent? || q.isActive == Text("true") || q.isActive == Text("false"))
    && DigitsRule(q.page) && DigitsRule(q.limit)
    && (q.sort.Absent? || (q.sort.Text? && q.sort.s in {"name", "-name", "sortOrder", "-sortOrder"}))
  }

  /** The number a digits-only value stands for, when given. */
  function DigitsValue(v: QueryValue): Option<nat>
    requires DigitsRule(v)
  {
    if v.Text? then Some(DecimalValue(v.s)) else None
  }

  /** A digit string reads as its value. */
  lemma DigitsParse(s: string)
    requires s != [] && AllDigits(s) && DecimalValue(s) <= ExactLimit
    ensures ParseNumber(Text(s)) == Some(Finite(DecimalValue(s)))
  {
    assert !IsSpace(s[0]) && !IsSpace(s[|s| - 1]);
    TrimNoSpace(s);
    NumberTextDigits(s);
  }

  /**
   * On a query the schema accepts, buildListQuery reads `isActive`, `page`,
   * `limit` and `sort` as the schema's own transforms do (page and limit up
   * to 2^53).
   */
  lemma ValidQueryParsesAsSchema(q: RawQuery)
    requires ListQueryValid(q)
    requires q.page.Text? ==> DecimalValue(q.page.s) <= ExactLimit
    requires q.limit.Text? ==> DecimalValue(q.limit.s) <= ExactLimit
    ensures var built := BuildListQuery(q);
      && built.isActive == (if q.isActive.Absent? then None else Some(q.isActive == Text("true")))
      && built.page == (if q.page.Text? then Some(Finite(DecimalValue(q.page.s))) else None)
      && built.limit == (if q.limit.Text? then Some(Finite(DecimalValue(q.limit.s))) else None)
      && (built.sort.Some? <==> q.sort.Text?)
      && (built.sort.Some? ==> SortText(built.sort.value) == q.sort.s)
  {
    if q.page.Text? {
      DigitsParse(q.page.s);
    }
    if q.limit.Text? {
      DigitsParse(q.limit.s);
    }
    if q.isActive.Text? {
      ParseBooleanRoundTrip(q.isActive == Text("true"));
    }
  }

  /** deleteCategorySchema: `hard` absent, `"true"` or `"false"`. */
  predicate DeleteQueryValid(hard: QueryValue) {
    hard.Absent? || hard == Text("true") || hard == Text("false")
  }
}
